/** Peers: checked snapshots, slots, and the queue each host scales for. */
module FederationPeers {
  import opened Common
  import opened FederationSplit
  import opened SplitTheorems

  const MAX_COUNT := 1000
  const MAX_CORES := 1024

  datatype Counts = Counts(running: int, busy: int, maxRunners: int)

  datatype Host = Host(cores: int, cpuCount: int, load1: real, memTotalMb: int, memAvailableMb: int,
                       tempC: Option<real>, freeCores: nat)

  datatype Snapshot = Snapshot(instance: string, version: string, ts: real, host: Host,
                               pools: map<string, Counts>, globalFree: Option<int>)

  // ------------------------------------------------------------ slots

  predicate IsHot(host: Host, maxTemp: real) { host.tempC.Some? && host.tempC.value >= maxTemp }

  /** How many queued jobs a host may still take for a pool. */
  function Room(c: Counts, globalFree: Option<int>): int {
    var room := c.maxRunners - c.busy;
    if globalFree.Some? then Min(room, globalFree.value + c.running - c.busy) else room
  }

  function SlotFor(s: Snapshot, pool: string, maxTemp: real): Option<Slot> {
    if pool !in s.pools then None
    else Some(Slot(s.instance, s.host.freeCores,
                   if IsHot(s.host, maxTemp) then 0 else Max(0, Room(s.pools[pool], s.globalFree))))
  }

  function SlotsOf(snapshots: seq<Snapshot>, pool: string, maxTemp: real): seq<Slot> {
    if snapshots == [] then []
    else
      var rest := SlotsOf(snapshots[1..], pool, maxTemp);
      var slot := SlotFor(snapshots[0], pool, maxTemp);
      if slot.Some? then [slot.value] + rest else rest
  }

  /** What a snapshot says its host can take: nothing while hot, and otherwise as many jobs as leave the
      pool within `max_runners` and the new runners they need within the host's free room. */
  ghost predicate CanTake(s: Snapshot, pool: string, maxTemp: real, n: nat) {
    n == 0 ||
    (&& pool in s.pools
     && (s.host.tempC.None? || s.host.tempC.value < maxTemp)
     && s.pools[pool].busy + n <= s.pools[pool].maxRunners
     && (s.globalFree.Some? ==> s.pools[pool].busy + n - s.pools[pool].running <= s.globalFree.value))
  }

  /** A host that runs the pool has a slot; it takes exactly the jobs the host can, weighed by its free cores. */
  lemma SlotTakesWhatFits(s: Snapshot, pool: string, maxTemp: real, n: nat)
    ensures SlotFor(s, pool, maxTemp).Some? <==> pool in s.pools
    ensures SlotFor(s, pool, maxTemp).Some? ==>
              var slot := SlotFor(s, pool, maxTemp).value;
              && slot.name == s.instance && slot.freeCores == s.host.freeCores
              && (n <= slot.capacity <==> CanTake(s, pool, maxTemp, n))
  {
  }

  ghost predicate DistinctInstances(snapshots: seq<Snapshot>) {
    forall i, j :: 0 <= i < j < |snapshots| ==> snapshots[i].instance != snapshots[j].instance
  }

  lemma {:induction false} SlotsComeFromSnapshots(snapshots: seq<Snapshot>, pool: string, maxTemp: real, s: Slot)
    ensures s in SlotsOf(snapshots, pool, maxTemp)
       <==> exists i :: 0 <= i < |snapshots| && SlotFor(snapshots[i], pool, maxTemp) == Some(s)
  {
    if snapshots != [] {
      SlotsComeFromSnapshots(snapshots[1..], pool, maxTemp, s);
      if exists i :: 0 <= i < |snapshots| && SlotFor(snapshots[i], pool, maxTemp) == Some(s) {
        var i :| 0 <= i < |snapshots| && SlotFor(snapshots[i], pool, maxTemp) == Some(s);
        if i > 0 { assert snapshots[1..][i - 1] == snapshots[i]; }
      }
    }
  }

  lemma {:induction false} SlotNamesDistinct(snapshots: seq<Snapshot>, pool: string, maxTemp: real)
    requires DistinctInstances(snapshots)
    ensures DistinctNames(SlotsOf(snapshots, pool, maxTemp))
  {
    if snapshots != [] {
      var rest := SlotsOf(snapshots[1..], pool, maxTemp);
      SlotNamesDistinct(snapshots[1..], pool, maxTemp);
      forall s | s in rest ensures s.name != snapshots[0].instance {
        SlotsComeFromSnapshots(snapshots[1..], pool, maxTemp, s);
      }
    }
  }

  // ------------------------------------------------------------ checked snapshots

  /** A JSON value where a number is expected; a missing one is NotANumber. */
  datatype Json = Number(value: real) | NotFinite | NotANumber

  datatype RawCounts = RawCounts(running: Json, busy: Json, maxRunners: Json)

  datatype RawHost = RawHost(cores: Json, cpuCount: Json, load1: Json, memTotalMb: Json, memAvailableMb: Json,
                             tempC: Option<Json>, freeCores: Json)

  /** What a peer sent; None is a value of the wrong type, and `version` is already text. */
  datatype RawSnapshot = RawSnapshot(
    instance: Option<string>, version: string, ts: Option<Json>, host: Option<RawHost>,
    pools: Option<map<string, Option<RawCounts>>>, globalFree: Option<Json>)

  predicate InRange(j: Json, low: int, high: int) { j.Number? && low as real <= j.value <= high as real }

  predicate NameChar(c: char) { 'a' <= c <= 'z' || '0' <= c <= '9' }

  predicate ValidInstance(name: string) {
    name == "" || (NameChar(name[0]) && forall c :: c in name ==> NameChar(c) || c == '-')
  }

  predicate CountsInRange(c: RawCounts) {
    InRange(c.running, 0, MAX_COUNT) && InRange(c.busy, 0, MAX_COUNT) && InRange(c.maxRunners, 0, MAX_COUNT)
  }

  predicate HostInRange(h: RawHost) {
    && InRange(h.cores, 1, MAX_CORES) && InRange(h.cpuCount, 1, MAX_CORES) && InRange(h.load1, 0, 100000)
    && InRange(h.memTotalMb, 0, 0x4000_0000) && InRange(h.memAvailableMb, 0, 0x4000_0000)
    && (h.tempC.Some? ==> InRange(h.tempC.value, -50, 150)) && InRange(h.freeCores, 0, MAX_CORES)
  }

  predicate PoolsInRange(pools: map<string, Option<RawCounts>>) {
    && |pools| <= MAX_COUNT
    && forall name :: name in pools ==> |name| <= 200 && pools[name].Some? && CountsInRange(pools[name].value)
  }

  predicate Acceptable(raw: RawSnapshot) {
    && raw.instance.Some? && ValidInstance(raw.instance.value)
    && (raw.ts.Some? ==> InRange(raw.ts.value, 0, 100_000_000_000))
    && raw.host.Some? && HostInRange(raw.host.value)
    && raw.pools.Some? && PoolsInRange(raw.pools.value)
    && (raw.globalFree.Some? ==> InRange(raw.globalFree.value, 0, MAX_COUNT))
  }

  function CleanHost(h: RawHost): Host
    requires HostInRange(h)
  {
    Host(h.cores.value.Floor, h.cpuCount.value.Floor, h.load1.value,
         h.memTotalMb.value.Floor, h.memAvailableMb.value.Floor,
         if h.tempC.Some? then Some(h.tempC.value.value) else None, h.freeCores.value.Floor)
  }

  function Truncated(c: RawCounts): Counts
    requires CountsInRange(c)
  {
    Counts(c.running.value.Floor, c.busy.value.Floor, c.maxRunners.value.Floor)
  }

  function CleanPools(pools: map<string, Option<RawCounts>>): map<string, Counts>
    requires PoolsInRange(pools)
  {
    map name | name in pools :: Truncated(pools[name].value)
  }

  /** Rebuilds a peer's snapshot from checked fields only; None stands for the ValueError. */
  function Validate(raw: RawSnapshot): Option<Snapshot> {
    if !Acceptable(raw) then None
    else Some(Snapshot(
                raw.instance.value, raw.version[..Min(64, |raw.version|)],
                if raw.ts.Some? then raw.ts.value.value else 0.0,
                CleanHost(raw.host.value), CleanPools(raw.pools.value),
                if raw.globalFree.Some? then Some(raw.globalFree.value.value.Floor) else None))
  }

  // What is sent on as JSON.

  function SentHost(h: Host): RawHost {
    RawHost(Number(h.cores as real), Number(h.cpuCount as real), Number(h.load1), Number(h.memTotalMb as real),
            Number(h.memAvailableMb as real), if h.tempC.Some? then Some(Number(h.tempC.value)) else None,
            Number(h.freeCores as real))
  }

  function SentCounts(c: Counts): RawCounts {
    RawCounts(Number(c.running as real), Number(c.busy as real), Number(c.maxRunners as real))
  }

  function SentPools(pools: map<string, Counts>): map<string, Option<RawCounts>> {
    map name | name in pools :: Some(SentCounts(pools[name]))
  }

  function Published(s: Snapshot): RawSnapshot {
    RawSnapshot(Some(s.instance), s.version, Some(Number(s.ts)), Some(SentHost(s.host)), Some(SentPools(s.pools)),
                if s.globalFree.Some? then Some(Number(s.globalFree.value as real)) else None)
  }

  lemma CountsRoundTrip(c: RawCounts)
    requires CountsInRange(c)
    ensures CountsInRange(SentCounts(Truncated(c))) && Truncated(SentCounts(Truncated(c))) == Truncated(c)
  {
  }

  lemma HostRoundTrip(h: RawHost)
    requires HostInRange(h)
    ensures HostInRange(SentHost(CleanHost(h))) && CleanHost(SentHost(CleanHost(h))) == CleanHost(h)
  {
  }

  lemma PoolsRoundTrip(pools: map<string, Option<RawCounts>>)
    requires PoolsInRange(pools)
    ensures PoolsInRange(SentPools(CleanPools(pools))) && CleanPools(SentPools(CleanPools(pools))) == CleanPools(pools)
  {
    var sent := SentPools(CleanPools(pools));
    assert sent.Keys == pools.Keys && |sent| == |sent.Keys| && |pools| == |pools.Keys|;
    forall name | name in sent
      ensures |name| <= 200 && sent[name].Some? && CountsInRange(sent[name].value)
      ensures Truncated(sent[name].value) == CleanPools(pools)[name]
    {
      CountsRoundTrip(pools[name].value);
    }
    assert CleanPools(sent) == CleanPools(pools);
  }

  /** What one host accepts, every host accepts unchanged: checked snapshots survive being passed on. */
  lemma ValidatedSnapshotsRoundTrip(raw: RawSnapshot)
    requires Validate(raw).Some?
    ensures Validate(Published(Validate(raw).value)) == Validate(raw)
  {
    HostRoundTrip(raw.host.value);
    PoolsRoundTrip(raw.pools.value);
    var s := Validate(raw).value;
    assert s.version[..Min(64, |s.version|)] == s.version;
  }

  /** A whole number, for the number it was cut down from. */
  ghost predicate Whole(n: int, j: Json) { j.Number? && n as real <= j.value < (n + 1) as real }

  ghost predicate WholeCounts(c: Counts, raw: RawCounts) {
    Whole(c.running, raw.running) && Whole(c.busy, raw.busy) && Whole(c.maxRunners, raw.maxRunners)
  }

  ghost predicate WholeHost(h: Host, raw: RawHost) {
    && Whole(h.cores, raw.cores) && Whole(h.cpuCount, raw.cpuCount) && raw.load1 == Number(h.load1)
    && Whole(h.memTotalMb, raw.memTotalMb) && Whole(h.memAvailableMb, raw.memAvailableMb)
    && raw.tempC == (if h.tempC.Some? then Some(Number(h.tempC.value)) else None)
    && Whole(h.freeCores, raw.freeCores)
  }

  /** An accepted snapshot says field by field what the peer sent, and nothing else. */
  lemma AcceptedIsWhatWasSent(raw: RawSnapshot)
    requires Validate(raw).Some?
    ensures var s := Validate(raw).value;
            && raw.instance == Some(s.instance) && s.version <= raw.version && |s.version| == Min(64, |raw.version|)
            && (if raw.ts.Some? then raw.ts.value == Number(s.ts) else s.ts == 0.0)
            && raw.host.Some? && WholeHost(s.host, raw.host.value)
            && (s.globalFree.Some? <==> raw.globalFree.Some?)
            && (s.globalFree.Some? ==> Whole(s.globalFree.value, raw.globalFree.value))
            && raw.pools.Some? && s.pools.Keys == raw.pools.value.Keys
            && forall name :: name in s.pools ==>
                 raw.pools.value[name].Some? && WholeCounts(s.pools[name], raw.pools.value[name].value)
  {
    var s := Validate(raw).value;
    forall name | name in s.pools ensures WholeCounts(s.pools[name], raw.pools.value[name].value) {
      assert CountsInRange(raw.pools.value[name].value);
    }
  }

  /** What a snapshot may say. */
  ghost predicate WithinLimits(s: Snapshot) {
    && (s.instance == "" || s.instance[0] != '-')
    && (forall c :: c in s.instance ==> 'a' <= c <= 'z' || '0' <= c <= '9' || c == '-')
    && |s.version| <= 64 && 0.0 <= s.ts <= 100_000_000_000.0
    && 1 <= s.host.cores <= 1024 && 1 <= s.host.cpuCount <= 1024 && 0.0 <= s.host.load1 <= 100000.0
    && 0 <= s.host.memTotalMb <= 0x4000_0000 && 0 <= s.host.memAvailableMb <= 0x4000_0000
    && (s.host.tempC.Some? ==> -50.0 <= s.host.tempC.value <= 150.0) && s.host.freeCores <= 1024
    && (s.globalFree.Some? ==> 0 <= s.globalFree.value <= 1000)
    && |s.pools| <= 1000
    && forall name :: name in s.pools ==> |name| <= 200 && CountsWithin(s.pools[name])
  }

  ghost predicate CountsWithin(c: Counts) { 0 <= c.running <= 1000 && 0 <= c.busy <= 1000 && 0 <= c.maxRunners <= 1000 }

  /** Peers accept a snapshot as it is if and only if it is within the limits. */
  lemma PublishedIsAcceptedIff(s: Snapshot)
    ensures Validate(Published(s)) == Some(s) <==> WithinLimits(s)
  {
    var raw := Published(s);
    var sent := raw.pools.value;
    assert sent.Keys == s.pools.Keys && |sent| == |sent.Keys| && |s.pools| == |s.pools.Keys|;
    forall name | name in s.pools
      ensures CountsInRange(sent[name].value) <==> CountsWithin(s.pools[name])
      ensures CountsWithin(s.pools[name]) ==> Truncated(sent[name].value) == s.pools[name]
    {
    }
    if WithinLimits(s) {
      assert s.instance != "" ==> s.instance[0] in s.instance;
      assert PoolsInRange(sent);
      assert CleanPools(sent) == s.pools;
      assert s.version[..|s.version|] == s.version;
    }
    if Validate(raw) == Some(s) {
      assert |s.version| == Min(64, |s.version|);
      forall name | name in s.pools ensures |name| <= 200 && CountsWithin(s.pools[name]) { assert name in sent; }
    }
  }

  // ------------------------------------------------------------ float quotients

  predicate Bounded(s: Snapshot) {
    && s.host.freeCores <= MAX_CORES
    && forall pool :: pool in s.pools ==> s.pools[pool].busy >= 0 && s.pools[pool].maxRunners <= MAX_COUNT
  }

  /** Hosts of different names, whose items rounding keeps in order. */
  ghost predicate Exact(round: real -> real, snapshots: seq<Snapshot>, pool: string, maxTemp: real) {
    DistinctInstances(snapshots) && KeepsOrder(round, SlotSet(SlotsOf(snapshots, pool, maxTemp)))
  }

  lemma CheckedIsBounded(raw: RawSnapshot)
    requires Validate(raw).Some?
    ensures Bounded(Validate(raw).value)
  {
    var pools := raw.pools.value;
    forall pool | pool in pools
      ensures Truncated(pools[pool].value).busy >= 0 && Truncated(pools[pool].value).maxRunners <= MAX_COUNT
    {
      assert CountsInRange(pools[pool].value);
    }
  }

  /** Among snapshots within the checked bounds - every peer's, and our own when it keeps to them - double
      precision orders all jobs as exact arithmetic does. */
  lemma BoundedSlotsKeepOrder(snapshots: seq<Snapshot>, pool: string, maxTemp: real, round: real -> real)
    requires RoundsToNearest(round) && forall s :: s in snapshots ==> Bounded(s)
    ensures KeepsOrder(round, SlotSet(SlotsOf(snapshots, pool, maxTemp)))
  {
    forall slot | slot in SlotsOf(snapshots, pool, maxTemp) ensures InFloatRange(slot) {
      SlotsComeFromSnapshots(snapshots, pool, maxTemp, slot);
      var i :| 0 <= i < |snapshots| && SlotFor(snapshots[i], pool, maxTemp) == Some(slot);
      assert Bounded(snapshots[i]);
    }
    FloatsKeepOrder(round, SlotSet(SlotsOf(snapshots, pool, maxTemp)));
  }

  // ------------------------------------------------------------ a host's view of its peers

  datatype PeerView = PeerView(snapshot: Option<Snapshot>, okAt: real, failed: bool)

  datatype Reply = Reply(raw: RawSnapshot, at: real)

  /** A good reply replaces what we knew of a peer; any other leaves it, marked as failed. */
  function AfterReply(views: map<string, PeerView>, replies: map<string, Reply>, peer: string): PeerView {
    if peer in replies && Validate(replies[peer].raw).Some?
    then PeerView(Validate(replies[peer].raw), replies[peer].at, false)
    else if peer in views then views[peer].(failed := true)
    else PeerView(None, 0.0, true)
  }

  datatype Config = Config(enabled: bool, maxTemp: real, rescueAfter: real, staleAfter: real, peers: seq<string>)

  function FreshFrom(views: map<string, PeerView>, names: seq<string>, me: Option<string>, now: real,
                     staleAfter: real): seq<Snapshot> {
    if names == [] then []
    else
      var rest := FreshFrom(views, names[1..], me, now, staleAfter);
      if && names[0] in views && views[names[0]].snapshot.Some?
         && now - views[names[0]].okAt <= staleAfter
         && Some(views[names[0]].snapshot.value.instance) != me
      then [views[names[0]].snapshot.value] + rest else rest
  }

  /** Exactly the recently seen peers that do not claim our name take part. */
  lemma {:induction false} FreshPeersExactly(views: map<string, PeerView>, names: seq<string>, me: Option<string>,
                                             now: real, staleAfter: real, s: Snapshot)
    ensures s in FreshFrom(views, names, me, now, staleAfter) <==>
            exists n :: n in names && n in views && views[n].snapshot == Some(s)
                        && now - views[n].okAt <= staleAfter && Some(s.instance) != me
  {
    if names != [] {
      FreshPeersExactly(views, names[1..], me, now, staleAfter, s);
      assert forall n :: n in names <==> n == names[0] || n in names[1..];
    }
  }

  lemma FreshPeersAre(views: map<string, PeerView>, names: seq<string>, me: Option<string>, now: real,
                      staleAfter: real)
    ensures forall s :: s in FreshFrom(views, names, me, now, staleAfter) <==>
              exists n :: n in names && n in views && views[n].snapshot == Some(s)
                          && now - views[n].okAt <= staleAfter && Some(s.instance) != me
  {
    forall s { FreshPeersExactly(views, names, me, now, staleAfter, s); }
  }

  function CountAtLeast(ages: seq<real>, limit: real): nat {
    if ages == [] then 0
    else CountAtLeast(ages[..|ages| - 1], limit) + if ages[|ages| - 1] >= limit then 1 else 0
  }

  /** It counts the ages that have reached the limit. */
  lemma {:induction false} CountsTheAges(ages: seq<real>, limit: real)
    ensures CountAtLeast(ages, limit) == |set i | 0 <= i < |ages| && ages[i] >= limit|
  {
    var all := set i | 0 <= i < |ages| && ages[i] >= limit;
    if ages == [] {
      assert all == {};
    } else {
      var n := |ages| - 1;
      var rest := set i | 0 <= i < |ages[..n]| && ages[..n][i] >= limit;
      CountsTheAges(ages[..n], limit);
      assert all == rest + if ages[n] >= limit then {n} else {};
    }
  }

  /** What a view of `own` and `peers` gives its host of a queue of `queued` jobs. */
  ghost function OwnShare(own: Snapshot, peers: seq<Snapshot>, pool: string, queued: int, maxTemp: real): nat
    requires DistinctInstances([own] + peers)
  {
    SlotNamesDistinct([own] + peers, pool, maxTemp);
    var shares := SplitSpec(queued, SlotsOf([own] + peers, pool, maxTemp));
    if own.instance in shares then shares[own.instance] else 0
  }

  /** The queue a host scales for: none while it is hot, otherwise its share or the jobs that have waited
      too long, whichever is more. */
  ghost function HostInput(own: Snapshot, peers: seq<Snapshot>, pool: string, ages: seq<real>, config: Config): nat
    requires DistinctInstances([own] + peers)
  {
    if config.enabled && IsHot(own.host, config.maxTemp) then 0
    else Max(OwnShare(own, peers, pool, |ages|, config.maxTemp), CountAtLeast(ages, config.rescueAfter))
  }

  /** A pool both we and a fresh peer run is split over at least two hosts. */
  lemma SharedPoolHasTwoSlots(own: Snapshot, peers: seq<Snapshot>, pool: string, maxTemp: real, peer: Snapshot)
    requires pool in own.pools && peer in peers && pool in peer.pools
    ensures |SlotsOf([own] + peers, pool, maxTemp)| >= 2
  {
    assert ([own] + peers)[1..] == peers;
    PresentPeerHasSlot(peers, pool, maxTemp, peer);
  }

  lemma {:induction false} PresentPeerHasSlot(snapshots: seq<Snapshot>, pool: string, maxTemp: real, s: Snapshot)
    requires s in snapshots && pool in s.pools
    ensures |SlotsOf(snapshots, pool, maxTemp)| >= 1
  {
    if snapshots[0] != s { PresentPeerHasSlot(snapshots[1..], pool, maxTemp, s); }
  }

  class Federation {
    const config: Config
    var own: Option<Snapshot>
    var views: map<string, PeerView>

    constructor (config: Config)
      ensures this.config == config && own == None && views == map[]
    {
      this.config, own, views := config, None, map[];
    }

    /** Publishes our snapshot and asks every peer for its own; a reply comes with the clock after it,
        and a peer without one cannot be reached. */
    method Refresh(snapshot: Snapshot, replies: map<string, Reply>)
      requires forall i, j :: 0 <= i < j < |config.peers| ==> config.peers[i] != config.peers[j]
      modifies this
      ensures own == Some(snapshot)
      ensures forall p :: p in config.peers ==> p in views && views[p] == AfterReply(old(views), replies, p)
      ensures forall p :: p in config.peers ==>
                && p in views
                && if p in replies && Validate(replies[p].raw).Some?
                   then views[p].snapshot == Validate(replies[p].raw) && views[p].okAt == replies[p].at
                        && !views[p].failed
                   else views[p].failed
                        && views[p].snapshot == (if p in old(views) then old(views)[p].snapshot else None)
                        && (p in old(views) ==> views[p].okAt == old(views)[p].okAt)
      ensures forall p :: p !in config.peers ==>
                (p in views <==> p in old(views)) && (p in views ==> views[p] == old(views)[p])
    {
      own := Some(snapshot);
      ghost var was := views;
      for i := 0 to |config.peers|
        invariant own == Some(snapshot)
        invariant forall p :: p in config.peers[..i] ==> p in views && views[p] == AfterReply(was, replies, p)
        invariant forall p :: p !in config.peers[..i] ==>
                  (p in views <==> p in was) && (p in views ==> views[p] == was[p])
      {
        var peer := config.peers[i];
        var snap := if peer in replies then Validate(replies[peer].raw) else None;
        if snap.None? {
          var view := if peer in views then views[peer] else PeerView(None, 0.0, false);
          views := views[peer := view.(failed := true)];
        } else {
          views := views[peer := PeerView(snap, replies[peer].at, false)];
        }
      }
    }

    /** The latest snapshots that are not stale and not from a host of our own name. */
    function FreshPeers(now: real): (r: seq<Snapshot>)
      reads this
      ensures forall s :: s in r <==>
                exists n :: n in config.peers && n in views && views[n].snapshot == Some(s)
                            && now - views[n].okAt <= config.staleAfter
                            && (own.Some? ==> s.instance != own.value.instance)
    {
      FreshPeersAre(views, config.peers, if own.Some? then Some(own.value.instance) else None, now, config.staleAfter);
      FreshFrom(views, config.peers, if own.Some? then Some(own.value.instance) else None, now, config.staleAfter)
    }

    predicate Hot()
      reads this
    {
      config.enabled && own.Some? && IsHot(own.value.host, config.maxTemp)
    }

    /** Whether the pool is split now: the flag is on, we run it, and so does a fresh peer. */
    method Covers(pool: string, now: real) returns (covered: bool)
      ensures covered <==>
        && config.enabled && own.Some? && pool in own.value.pools
        && exists p :: p in FreshPeers(now) && pool in p.pools
      ensures covered ==> |SlotsOf([own.value] + FreshPeers(now), pool, config.maxTemp)| >= 2
    {
      if !config.enabled || own.None? || pool !in own.value.pools {
        return false;
      }
      covered := exists p :: p in FreshPeers(now) && pool in p.pools;
      if covered {
        ghost var peer :| peer in FreshPeers(now) && pool in peer.pools;
        SharedPoolHasTwoSlots(own.value, FreshPeers(now), pool, config.maxTemp, peer);
      }
    }

    /** Our own snapshot, once we have one, and those of our fresh peers. */
    function Snapshots(now: real): seq<Snapshot>
      reads this
    {
      (if own.Some? then [own.value] else []) + FreshPeers(now)
    }

    /** The queue this host scales for; `round` is what the machine makes of a quotient. */
    method QueueInput(pool: string, ages: seq<real>, now: real, round: real -> real) returns (queued: nat)
      ensures Hot() <==> config.enabled && own.Some? && own.value.host.tempC.Some?
                         && own.value.host.tempC.value >= config.maxTemp
      ensures Hot() ==> queued == 0
      ensures !Hot() ==> queued >= |set i | 0 <= i < |ages| && ages[i] >= config.rescueAfter|
      ensures own.Some? && Exact(round, [own.value] + FreshPeers(now), pool, config.maxTemp) ==>
                queued == HostInput(own.value, FreshPeers(now), pool, ages, config)
    {
      var slots := SlotsOf(Snapshots(now), pool, config.maxTemp);
      if DistinctInstances(Snapshots(now)) { SlotNamesDistinct(Snapshots(now), pool, config.maxTemp); }
      var shares := Split(|ages|, slots, round);
      var rescue := CountAtLeast(ages, config.rescueAfter);
      CountsTheAges(ages, config.rescueAfter);
      var instance := if own.Some? then own.value.instance else "";
      var mine := if instance in shares then shares[instance] else 0;
      queued := if Hot() then 0 else Max(mine, rescue);
    }
  }
}
