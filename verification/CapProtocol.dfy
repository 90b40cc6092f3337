/** The global-cap reservation protocol, one atomic step per lock section.

    A pool's reservation is two steps: `docker ps` is read while `_cap_lock` is taken, and the grant
    is made from that count later. Containers appear, fail and exit in between without the lock. */
module CapProtocol {
  import opened Common

  /** How many of `want` slots `_reserve_spawns` grants; a cap of 0 means unlimited. */
  function Grant(cap: int, total: int, reserved: int, want: int): int {
    if want <= 0 then 0
    else if cap > 0 then Min(want, Max(0, cap - total - reserved))
    else want
  }

  /** A grant is the most of `want` that fits beside what runs and what is reserved. */
  lemma GrantIsTheMost(cap: int, total: int, reserved: int, want: int, n: nat)
    requires n > 0
    ensures n <= Grant(cap, total, reserved, want) <==> n <= want && (cap > 0 ==> total + reserved + n <= cap)
  {
  }

  /** `_reserved_spawns` after `_release_spawns(count)`. */
  function Released(reserved: int, count: int): int {
    if count <= 0 then reserved else Max(0, reserved - count)
  }

  /** One granted slot; the container started for it carries the same identity. */
  datatype Slot = Slot(pool: string, n: nat)

  /** A pool inside `_reserve_spawns`, between its `docker ps` read and its grant. */
  datatype Section = Section(pool: string, want: int, cap: int, total: nat)

  datatype World = World(
    cap: int,              // _max_total_runners
    reserved: int,         // _reserved_spawns
    lock: Option<Section>, // who holds _cap_lock across its ps read
    visible: set<Slot>,    // containers docker ps lists
    starting: set<Slot>,   // granted, not visible yet
    settled: set<Slot>,    // granted, visible or failed, not released yet
    freed: set<Slot>)      // released

  datatype Action =
    | ReadPs(pool: string, want: int)
    | MakeGrant(batch: set<Slot>)
    | Appear(slot: Slot)
    | Fail(slot: Slot)
    | Exit(slot: Slot)
    | ReleaseOne(slot: Slot)
    | GiveBack(batch: set<Slot>, unused: set<Slot>)
    | SetCap(cap: int)

  function Issued(w: World): set<Slot> { w.starting + w.settled + w.freed }

  ghost predicate Step(w: World, a: Action, v: World) {
    match a
    case ReadPs(pool, want) =>
      w.lock.None? && want > 0 && v == w.(lock := Some(Section(pool, want, w.cap, |w.visible|)))
    case MakeGrant(batch) =>
      && w.lock.Some?
      && |batch| == Grant(w.lock.value.cap, w.lock.value.total, w.reserved, w.lock.value.want)
      && batch !! Issued(w) + w.visible && (forall s :: s in batch ==> s.pool == w.lock.value.pool)
      && v == w.(lock := None, reserved := w.reserved + |batch|, starting := w.starting + batch)
    case Appear(slot) =>
      && slot in w.starting
      && v == w.(visible := w.visible + {slot}, starting := w.starting - {slot}, settled := w.settled + {slot})
    case Fail(slot) =>
      slot in w.starting && v == w.(starting := w.starting - {slot}, settled := w.settled + {slot})
    case Exit(slot) =>
      slot in w.visible && v == w.(visible := w.visible - {slot})
    case ReleaseOne(slot) =>
      && w.lock.None? && slot in w.settled
      && v == w.(settled := w.settled - {slot}, freed := w.freed + {slot}, reserved := Released(w.reserved, 1))
    case GiveBack(batch, unused) =>  // `finally` of a call that raised: it takes all its slots for unsubmitted
      && w.lock.None? && unused <= batch && unused <= w.starting && batch - unused <= w.freed
      && v == w.(starting := w.starting - unused, freed := w.freed + unused,
                 reserved := Released(w.reserved, |batch|))
    case SetCap(cap) => v == w.(cap := cap)
  }

  /** A fresh process: some containers may be running, nothing is reserved. */
  ghost predicate Init(w: World) {
    w.reserved == 0 && w.lock.None? && w.starting == {} && w.settled == {} && w.freed == {}
  }

  ghost predicate Steps(worlds: seq<World>, actions: seq<Action>) {
    && |worlds| == |actions| + 1
    && forall i {:trigger actions[i]} :: 0 <= i < |actions| ==> Step(worlds[i], actions[i], worlds[i + 1])
  }

  ghost predicate Run(worlds: seq<World>, actions: seq<Action>) { Steps(worlds, actions) && Init(worlds[0]) }

  /** The counter is exact, and while a pool holds its ps count, whatever appeared since is
      accounted for by slots that cannot be released before it grants. */
  ghost predicate Books(w: World) {
    && w.starting !! w.settled && w.starting !! w.freed && w.settled !! w.freed
    && w.starting !! w.visible
    && w.reserved == |w.starting| + |w.settled|
    && (w.lock.Some? ==> w.lock.value.want > 0 && |w.visible| <= w.lock.value.total + |w.settled|)
  }

  lemma Moves(s: set<Slot>, x: Slot)
    ensures x in s ==> |s - {x}| == |s| - 1
    ensures x !in s ==> |s + {x}| == |s| + 1
  {
  }

  lemma SetSplit(s: set<Slot>, part: set<Slot>)
    requires part <= s
    ensures |s - part| == |s| - |part|
  {
    assert s == (s - part) + part;
  }

  /** Whether a step gives back only what is still held: every slot of the call was unsubmitted, or no
      other slot is reserved at that moment and the counter stops at zero. */
  ghost predicate Exact(w: World, a: Action) {
    a.GiveBack? ==> a.batch == a.unused || w.starting + w.settled == a.unused
  }

  lemma OtherStepsKeepBooks(w: World, a: Action, v: World)
    requires Books(w) && Step(w, a, v) && !a.GiveBack?
    ensures Books(v)
  {
    match a
    case Appear(slot) =>
      Moves(w.starting, slot);
      Moves(w.settled, slot);
      Moves(w.visible, slot);
    case Fail(slot) =>
      Moves(w.starting, slot);
      Moves(w.settled, slot);
    case Exit(slot) => Moves(w.visible, slot);
    case ReleaseOne(slot) => Moves(w.settled, slot);
    case MakeGrant(batch) => assert |w.starting + batch| == |w.starting| + |batch|;
    case _ =>
  }

  /** A call that raised gives back its whole grant; what was held is only what it never submitted. */
  lemma GiveBackTooMuch(w: World, batch: set<Slot>, unused: set<Slot>, v: World)
    requires Books(w) && Step(w, GiveBack(batch, unused), v)
    ensures |v.starting| + |v.settled| == w.reserved - |unused| >= v.reserved >= 0
    ensures v.reserved == |v.starting| + |v.settled| <==> Exact(w, GiveBack(batch, unused))
  {
    SetSplit(w.starting, unused);
    SetSplit(batch, unused);
    assert |w.starting + w.settled| == |w.starting| + |w.settled|;
    if |batch - unused| == 0 { assert batch - unused == {}; }
    if |v.starting| + |v.settled| == 0 { assert v.starting == {} && v.settled == {}; }
  }

  /** A step keeps the books if and only if it is exact. */
  lemma StepKeepsBooksIff(w: World, a: Action, v: World)
    requires Books(w) && Step(w, a, v)
    ensures Books(v) <==> Exact(w, a)
  {
    if a.GiveBack? {
      GiveBackTooMuch(w, a.batch, a.unused, v);
    } else {
      OtherStepsKeepBooks(w, a, v);
    }
  }

  /** Every positive grant respects the cap its own section read, whatever happened meanwhile. */
  lemma GrantRespectsItsCap(w: World, batch: set<Slot>, v: World)
    requires Books(w) && Step(w, MakeGrant(batch), v)
    requires batch != {} && w.lock.value.cap > 0
    ensures |v.visible| + |v.starting| <= w.lock.value.cap
  {
    assert |w.starting + batch| == |w.starting| + |batch|;
    assert |batch| > 0;
  }

  ghost predicate Capped(w: World, cap: int) {
    && w.cap == cap && (w.lock.Some? ==> w.lock.value.cap == cap)
    && |w.visible| + |w.starting| <= cap
  }

  lemma StepKeepsCap(w: World, a: Action, v: World, cap: int)
    requires cap > 0 && Books(w) && Capped(w, cap) && Step(w, a, v) && v.cap == cap
    ensures Capped(v, cap)
  {
    match a
    case Appear(slot) =>
      Moves(w.starting, slot);
      Moves(w.visible, slot);
    case Fail(slot) => Moves(w.starting, slot);
    case Exit(slot) => Moves(w.visible, slot);
    case MakeGrant(batch) =>
      if batch == {} {
        assert w.starting + batch == w.starting;
      } else {
        GrantRespectsItsCap(w, batch, v);
      }
    case GiveBack(_, unused) => SetSplit(w.starting, unused);
    case _ =>
  }

  ghost predicate AllExact(worlds: seq<World>, actions: seq<Action>)
    requires |worlds| == |actions| + 1
  {
    forall j :: 0 <= j < |actions| ==> Exact(worlds[j], actions[j])
  }

  lemma {:induction false} BooksInEveryRun(worlds: seq<World>, actions: seq<Action>, i: nat)
    requires Run(worlds, actions) && AllExact(worlds, actions) && i < |worlds|
    ensures Books(worlds[i])
  {
    if i > 0 {
      BooksInEveryRun(worlds, actions, i - 1);
      StepKeepsBooksIff(worlds[i - 1], actions[i - 1], worlds[i]);
    }
  }

  /** The counter is right throughout a run if and only if every release in it was exact. */
  lemma BooksThroughoutIff(worlds: seq<World>, actions: seq<Action>)
    requires Run(worlds, actions)
    ensures (forall i :: 0 <= i < |worlds| ==> Books(worlds[i])) <==> AllExact(worlds, actions)
  {
    if AllExact(worlds, actions) {
      forall i | 0 <= i < |worlds| ensures Books(worlds[i]) { BooksInEveryRun(worlds, actions, i); }
    }
    if forall i :: 0 <= i < |worlds| ==> Books(worlds[i]) {
      forall j | 0 <= j < |actions| ensures Exact(worlds[j], actions[j]) {
        assert Books(worlds[j]) && Books(worlds[j + 1]);
        StepKeepsBooksIff(worlds[j], actions[j], worlds[j + 1]);
      }
    }
  }

  /** Safety over every interleaving: pools ticking concurrently never jointly exceed a fixed cap. */
  lemma {:induction false} CapHoldsInEveryRun(worlds: seq<World>, actions: seq<Action>, cap: int, i: nat)
    requires Run(worlds, actions) && AllExact(worlds, actions) && i < |worlds|
    requires cap > 0 && |worlds[0].visible| <= cap
    requires forall j :: 0 <= j < |worlds| ==> worlds[j].cap == cap
    ensures |worlds[i].visible| + |worlds[i].starting| <= cap
    ensures Capped(worlds[i], cap)
  {
    if i > 0 {
      var w, a, v := worlds[i - 1], actions[i - 1], worlds[i];
      CapHoldsInEveryRun(worlds, actions, cap, i - 1);
      BooksInEveryRun(worlds, actions, i - 1);
      assert Step(w, a, v) && v.cap == cap;
      StepKeepsCap(w, a, v, cap);
    }
  }

  // ------------------------------------------------------------ conservation

  /** The slots a pool was granted and has not released. */
  ghost function Outstanding(w: World, pool: string): set<Slot> {
    set s | s in w.starting + w.settled && s.pool == pool
  }

  ghost function OutstandingTotal(w: World, pools: seq<string>): nat {
    if pools == [] then 0 else |Outstanding(w, pools[0])| + OutstandingTotal(w, pools[1..])
  }

  lemma {:induction false} CountByPool(w: World, pools: seq<string>)
    requires forall i, j :: 0 <= i < j < |pools| ==> pools[i] != pools[j]
    ensures |set s | s in w.starting + w.settled && s.pool in pools| == OutstandingTotal(w, pools)
  {
    var all := set s | s in w.starting + w.settled && s.pool in pools;
    if pools == [] {
      assert all == {};
    } else {
      CountByPool(w, pools[1..]);
      var rest := set s | s in w.starting + w.settled && s.pool in pools[1..];
      assert pools == [pools[0]] + pools[1..];
      assert all == Outstanding(w, pools[0]) + rest;
      assert Outstanding(w, pools[0]) !! rest;
    }
  }

  /** In every run the counter is the sum of the outstanding grants over all pools; in particular
      it is back at zero whenever every granted slot has been released. */
  lemma CounterIsSumOfGrants(worlds: seq<World>, actions: seq<Action>, i: nat, pools: seq<string>)
    requires Run(worlds, actions) && AllExact(worlds, actions) && i < |worlds|
    requires forall j, k :: 0 <= j < k < |pools| ==> pools[j] != pools[k]
    requires forall s :: s in Issued(worlds[i]) ==> s.pool in pools
    ensures worlds[i].reserved == OutstandingTotal(worlds[i], pools)
    ensures worlds[i].reserved == |Issued(worlds[i])| - |worlds[i].freed|
  {
    var w := worlds[i];
    BooksInEveryRun(worlds, actions, i);
    CountByPool(w, pools);
    assert (set s | s in w.starting + w.settled && s.pool in pools) == w.starting + w.settled;
    assert Issued(w) == w.starting + w.settled + w.freed;
  }
}
