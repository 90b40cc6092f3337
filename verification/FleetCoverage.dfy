/** From the split to started runners: hosts that agree cover the queue between them. */
module FleetCoverage {
  import opened Common
  import opened FederationSplit
  import opened SplitTheorems
  import opened FederationPeers
  import RunnerOperations
  import Scaler

  /** The peers of host i, as host i last fetched them, are the rest of the fleet in some order. */
  ghost predicate Agreeing(fleet: seq<Snapshot>, peersOf: seq<seq<Snapshot>>) {
    && DistinctInstances(fleet) && |peersOf| == |fleet|
    && forall i :: 0 <= i < |fleet| ==>
         && DistinctInstances([fleet[i]] + peersOf[i])
         && forall s :: s in [fleet[i]] + peersOf[i] <==> s in fleet
  }

  /** What each host of the fleet takes as its own share. */
  ghost function OwnShares(fleet: seq<Snapshot>, peersOf: seq<seq<Snapshot>>, pool: string, queued: int,
                           maxTemp: real): (r: seq<int>)
    requires Agreeing(fleet, peersOf)
    ensures |r| == |fleet|
    ensures forall i :: 0 <= i < |fleet| ==> r[i] == OwnShare(fleet[i], peersOf[i], pool, queued, maxTemp)
  {
    seq(|fleet|, i requires 0 <= i < |fleet| => OwnShare(fleet[i], peersOf[i], pool, queued, maxTemp))
  }

  ghost function FleetCapacity(fleet: seq<Snapshot>, pool: string, maxTemp: real): int {
    Sum(Capacities(SlotsOf(fleet, pool, maxTemp)))
  }

  function ShareOf(shares: map<string, nat>, name: string): nat { if name in shares then shares[name] else 0 }

  function SharesOf(shares: map<string, nat>, snapshots: seq<Snapshot>): seq<int> {
    if snapshots == [] then [] else [ShareOf(shares, snapshots[0].instance)] + SharesOf(shares, snapshots[1..])
  }

  lemma {:induction false} SharesOfAt(shares: map<string, nat>, snapshots: seq<Snapshot>, i: nat)
    requires i < |snapshots|
    ensures |SharesOf(shares, snapshots)| == |snapshots|
    ensures SharesOf(shares, snapshots)[i] == ShareOf(shares, snapshots[i].instance)
  {
    if |snapshots| > 1 { SharesOfAt(shares, snapshots[1..], if i == 0 then 0 else i - 1); }
  }

  /** Hosts that do not run the pool have no slot and no share. */
  lemma {:induction false} SharesAddUp(shares: map<string, nat>, snapshots: seq<Snapshot>, pool: string, maxTemp: real)
    requires forall s :: s in snapshots ==> (s.instance in shares <==> SlotFor(s, pool, maxTemp).Some?)
    requires forall s :: s in SlotsOf(snapshots, pool, maxTemp) ==> s.name in shares
    ensures Sum(SharesOf(shares, snapshots)) == Sum(Listed(SlotsOf(snapshots, pool, maxTemp), shares))
  {
    if snapshots != [] {
      var rest := snapshots[1..];
      assert forall s :: s in SlotsOf(rest, pool, maxTemp) ==> s in SlotsOf(snapshots, pool, maxTemp);
      SharesAddUp(shares, rest, pool, maxTemp);
    }
  }

  /** Every view of an agreeing fleet yields the same split. */
  lemma ViewsAgree(fleet: seq<Snapshot>, peersOf: seq<seq<Snapshot>>, pool: string, queued: int, maxTemp: real, i: nat)
    requires Agreeing(fleet, peersOf) && i < |fleet|
    ensures DistinctNames(SlotsOf(fleet, pool, maxTemp))
    ensures OwnShare(fleet[i], peersOf[i], pool, queued, maxTemp)
         == ShareOf(SplitSpec(queued, SlotsOf(fleet, pool, maxTemp)), fleet[i].instance)
  {
    var view := [fleet[i]] + peersOf[i];
    SlotNamesDistinct(fleet, pool, maxTemp);
    SlotNamesDistinct(view, pool, maxTemp);
    forall s ensures s in SlotsOf(view, pool, maxTemp) <==> s in SlotsOf(fleet, pool, maxTemp) {
      SameMembersSameSlots(view, fleet, pool, maxTemp, s);
      SameMembersSameSlots(fleet, view, pool, maxTemp, s);
    }
    SameSlotsSameSplit(queued, SlotsOf(view, pool, maxTemp), SlotsOf(fleet, pool, maxTemp));
  }

  lemma SameMembersSameSlots(a: seq<Snapshot>, b: seq<Snapshot>, pool: string, maxTemp: real, s: Slot)
    requires forall x :: x in a ==> x in b
    ensures s in SlotsOf(a, pool, maxTemp) ==> s in SlotsOf(b, pool, maxTemp)
  {
    SlotsComeFromSnapshots(a, pool, maxTemp, s);
    SlotsComeFromSnapshots(b, pool, maxTemp, s);
    if s in SlotsOf(a, pool, maxTemp) {
      var i :| 0 <= i < |a| && SlotFor(a[i], pool, maxTemp) == Some(s);
      assert a[i] in b;
      var j :| 0 <= j < |b| && b[j] == a[i];
      assert SlotFor(b[j], pool, maxTemp) == Some(s);
    }
  }

  lemma SplitCoversSlots(fleet: seq<Snapshot>, pool: string, queued: int, maxTemp: real)
    requires DistinctInstances(fleet)
    ensures DistinctNames(SlotsOf(fleet, pool, maxTemp))
    ensures var shares := SplitSpec(queued, SlotsOf(fleet, pool, maxTemp));
            forall s :: s in fleet ==> (s.instance in shares <==> SlotFor(s, pool, maxTemp).Some?)
  {
    var slots := SlotsOf(fleet, pool, maxTemp);
    SlotNamesDistinct(fleet, pool, maxTemp);
    forall s | s in fleet ensures s.instance in SplitSpec(queued, slots) <==> SlotFor(s, pool, maxTemp).Some? {
      var i :| 0 <= i < |fleet| && fleet[i] == s;
      if SlotFor(s, pool, maxTemp).Some? {
        SlotsComeFromSnapshots(fleet, pool, maxTemp, SlotFor(s, pool, maxTemp).value);
      }
      if s.instance in SplitSpec(queued, slots) {
        assert s.instance in Names(SlotSet(slots));
        var t :| t in SlotSet(slots) && t.name == s.instance;
        SlotsComeFromSnapshots(fleet, pool, maxTemp, t);
        var j :| 0 <= j < |fleet| && SlotFor(fleet[j], pool, maxTemp) == Some(t);
        assert i == j;
      }
    }
  }

  /** Hosts holding the same snapshots share the queue out completely and without overlap. */
  lemma AgreeingPeersShareTheQueue(fleet: seq<Snapshot>, peersOf: seq<seq<Snapshot>>, pool: string, queued: nat,
                                   maxTemp: real)
    requires Agreeing(fleet, peersOf)
    ensures Sum(OwnShares(fleet, peersOf, pool, queued, maxTemp)) == Min(queued, FleetCapacity(fleet, pool, maxTemp))
  {
    var slots := SlotsOf(fleet, pool, maxTemp);
    SplitCoversSlots(fleet, pool, queued, maxTemp);
    var shares := SplitSpec(queued, slots);
    SplitIsExact(queued, slots);
    SharesAddUp(shares, fleet, pool, maxTemp);
    var own, listed := OwnShares(fleet, peersOf, pool, queued, maxTemp), SharesOf(shares, fleet);
    if fleet != [] { SharesOfAt(shares, fleet, 0); }
    forall i | 0 <= i < |fleet| ensures own[i] == listed[i] {
      ViewsAgree(fleet, peersOf, pool, queued, maxTemp, i);
      SharesOfAt(shares, fleet, i);
    }
    assert own == listed;
  }

  /** No host's share is more than its snapshot says it can take. */
  lemma ShareFitsRoom(fleet: seq<Snapshot>, peersOf: seq<seq<Snapshot>>, pool: string, queued: int, maxTemp: real,
                      i: nat)
    requires Agreeing(fleet, peersOf) && i < |fleet|
    ensures CanTake(fleet[i], pool, maxTemp, OwnShare(fleet[i], peersOf[i], pool, queued, maxTemp))
  {
    var slots, share := SlotsOf(fleet, pool, maxTemp), OwnShare(fleet[i], peersOf[i], pool, queued, maxTemp);
    ViewsAgree(fleet, peersOf, pool, queued, maxTemp, i);
    SplitCoversSlots(fleet, pool, queued, maxTemp);
    assert fleet[i] in fleet;
    if SlotFor(fleet[i], pool, maxTemp).Some? {
      var slot := SlotFor(fleet[i], pool, maxTemp).value;
      SlotsComeFromSnapshots(fleet, pool, maxTemp, slot);
      SplitIsMonotone(queued, queued, slots, slot);
      SlotTakesWhatFits(fleet[i], pool, maxTemp, share);
    }
  }

  /** Whatever jobs the hosts could take between them, the capacity of the fleet is no less. */
  lemma {:induction false} CapacityIsTheMost(fleet: seq<Snapshot>, pool: string, maxTemp: real, takes: seq<nat>)
    requires |takes| == |fleet| && forall i :: 0 <= i < |fleet| ==> CanTake(fleet[i], pool, maxTemp, takes[i])
    ensures Sum(takes) <= FleetCapacity(fleet, pool, maxTemp)
  {
    if fleet != [] {
      CapacityIsTheMost(fleet[1..], pool, maxTemp, takes[1..]);
      SlotTakesWhatFits(fleet[0], pool, maxTemp, takes[0]);
      var slot, rest := SlotFor(fleet[0], pool, maxTemp), SlotsOf(fleet[1..], pool, maxTemp);
      if slot.Some? { assert ([slot.value] + rest)[1..] == rest; }
    }
  }

  /** Agreeing hosts take jobs of the queue, each no more than it can, and between them no fewer than any
      other way to place as many of its jobs as fit. */
  lemma AgreeingPeersTakeAllTheyCan(fleet: seq<Snapshot>, peersOf: seq<seq<Snapshot>>, pool: string, queued: nat,
                                    maxTemp: real, takes: seq<nat>)
    requires Agreeing(fleet, peersOf)
    requires |takes| == |fleet| && forall i :: 0 <= i < |fleet| ==> CanTake(fleet[i], pool, maxTemp, takes[i])
    ensures var shares := OwnShares(fleet, peersOf, pool, queued, maxTemp);
            && (forall i :: 0 <= i < |fleet| ==> shares[i] >= 0 && CanTake(fleet[i], pool, maxTemp, shares[i]))
            && Min(queued, Sum(takes)) <= Sum(shares) <= queued
  {
    forall i | 0 <= i < |fleet| {
      ShareFitsRoom(fleet, peersOf, pool, queued, maxTemp, i);
    }
    CapacityIsTheMost(fleet, pool, maxTemp, takes);
    AgreeingPeersShareTheQueue(fleet, peersOf, pool, queued, maxTemp);
  }

  // ------------------------------------------------------------ down to the cap

  /** What is true of a host when its tick runs; `offline` are the runners it will deregister. */
  datatype Live = Live(pool: Scaler.Pool, running: nat, busy: nat, cap: nat, total: nat, offline: seq<string>)

  /** The snapshot still describes the host: same counts, and the global room its cap leaves. */
  ghost predicate Current(s: Snapshot, pool: string, h: Live) {
    && pool in s.pools && s.pools[pool] == Counts(h.running, h.busy, h.pool.maxRunners)
    && s.globalFree == if h.cap > 0 then Some(Max(0, h.cap - h.total)) else None
  }

  /** What the host's tick submits for this queue, hot or not, with nothing else reserved. */
  function TickOf(h: Live, queued: nat, hot: bool): seq<RunnerOperations.Operation> {
    Scaler.TickLog(h.pool, Scaler.Inspection(h.running, h.busy, queued, h.offline), hot, h.cap, h.total, 0)
  }

  /** Runners for the pool once those spawns are up. */
  function RunnersAfter(h: Live, queued: nat, hot: bool): int {
    h.running + RunnerOperations.SpawnsIn(TickOf(h, queued, hot))
  }

  /** A cool host with a current snapshot has a slot for exactly the jobs that keep it within `max_runners`
      and need no more new runners than its cap has room for. */
  lemma CapacityIsRoom(s: Snapshot, pool: string, maxTemp: real, h: Live, n: nat)
    requires Current(s, pool, h) && (s.host.tempC.None? || s.host.tempC.value < maxTemp) && n > 0
    ensures n <= SlotFor(s, pool, maxTemp).value.capacity <==>
              && h.busy + n <= h.pool.maxRunners
              && (h.cap > 0 ==> h.busy + n - h.running <= Max(0, h.cap - h.total))
    ensures n <= SlotFor(s, pool, maxTemp).value.capacity <==> CanTake(s, pool, maxTemp, n)
  {
    SlotTakesWhatFits(s, pool, maxTemp, n);
  }

  /** Neither `max_runners` nor the global cap cuts a share short that the host has room for. */
  lemma ShareIsNotTruncated(h: Live, share: nat, queued: nat)
    requires 0 < share <= queued && h.busy + share <= h.pool.maxRunners
    requires h.cap > 0 ==> h.busy + share - h.running <= Max(0, h.cap - h.total)
    ensures RunnersAfter(h, queued, false) >= h.busy + share
  {
    Scaler.TickLogSpawns(h.pool, Scaler.Inspection(h.running, h.busy, queued, h.offline), false, h.cap, h.total, 0);
  }

  predicate HotAt(s: Snapshot, config: Config) { config.enabled && IsHot(s.host, config.maxTemp) }

  lemma RunnersCoverShare(s: Snapshot, peers: seq<Snapshot>, h: Live, pool: string, ages: seq<real>, config: Config)
    requires DistinctInstances([s] + peers)
    requires var share := OwnShare(s, peers, pool, |ages|, config.maxTemp);
             CanTake(s, pool, config.maxTemp, share) && share > 0 && Current(s, pool, h)
    ensures RunnersAfter(h, HostInput(s, peers, pool, ages, config), HotAt(s, config)) >=
              h.busy + OwnShare(s, peers, pool, |ages|, config.maxTemp)
  {
    var share := OwnShare(s, peers, pool, |ages|, config.maxTemp);
    CapacityIsRoom(s, pool, config.maxTemp, h, share);
    ShareIsNotTruncated(h, share, HostInput(s, peers, pool, ages, config));
  }

  /** End to end: hosts that hold the same snapshots, each feeding in what `queue_input` returns and
      running the tick that follows, end up with runners beyond the busy ones for the whole queue, or for
      as much of it as any way of placing jobs on cool hosts with room could take - where those hosts, and
      the ones with a share, still are as their snapshots say. What a host without a share gains is not
      counted. */
  lemma FleetCoversTheQueue(fleet: seq<Snapshot>, peersOf: seq<seq<Snapshot>>, live: seq<Live>, pool: string,
                            ages: seq<real>, config: Config, takes: seq<nat>, gains: seq<int>)
    requires Agreeing(fleet, peersOf) && |live| == |takes| == |gains| == |fleet|
    requires forall i :: 0 <= i < |fleet| ==>
               var input := HostInput(fleet[i], peersOf[i], pool, ages, config);
               gains[i] == if OwnShare(fleet[i], peersOf[i], pool, |ages|, config.maxTemp) == 0 then 0
                           else RunnersAfter(live[i], input, HotAt(fleet[i], config)) - live[i].busy
    requires forall i :: 0 <= i < |fleet| && OwnShare(fleet[i], peersOf[i], pool, |ages|, config.maxTemp) > 0 ==>
               Current(fleet[i], pool, live[i])
    requires forall i :: 0 <= i < |fleet| && takes[i] > 0 ==>
               && Current(fleet[i], pool, live[i])
               && (fleet[i].host.tempC.None? || fleet[i].host.tempC.value < config.maxTemp)
               && live[i].busy + takes[i] <= live[i].pool.maxRunners
               && (live[i].cap > 0 ==>
                     live[i].busy + takes[i] - live[i].running <= Max(0, live[i].cap - live[i].total))
    ensures Sum(gains) >= Min(|ages|, Sum(takes))
  {
    var shares := OwnShares(fleet, peersOf, pool, |ages|, config.maxTemp);
    forall i | 0 <= i < |fleet| ensures CanTake(fleet[i], pool, config.maxTemp, takes[i]) {
      if takes[i] > 0 { CapacityIsRoom(fleet[i], pool, config.maxTemp, live[i], takes[i]); }
    }
    AgreeingPeersTakeAllTheyCan(fleet, peersOf, pool, |ages|, config.maxTemp, takes);
    forall i | 0 <= i < |fleet| ensures shares[i] <= gains[i] {
      if shares[i] > 0 { RunnersCoverShare(fleet[i], peersOf[i], live[i], pool, ages, config); }
    }
    SumMonotone(shares, gains);
  }
}
