/** A pool's tick as steps of the cap protocol between those of other pools, and the one step that harms it. */
module TickProtocol {
  import opened Common
  import opened CapProtocol
  import PersonalPool
  import RunnerOperations
  import Scaler

  /** `v` comes after `w`: slots are granted, used and released, and the cap is left alone. */
  ghost predicate Leads(w: World, v: World) {
    exists worlds, actions ::
      && Steps(worlds, actions) && worlds[0] == w && worlds[|actions|] == v
      && forall a :: a in actions ==> Ordinary(a)
  }

  predicate Ordinary(a: Action) { !a.GiveBack? && !a.SetCap? }

  lemma LeadsNowhere(w: World)
    ensures Leads(w, w)
  {
    var worlds, actions: seq<Action> := [w], [];
    assert Steps(worlds, actions) && worlds[|actions|] == w;
  }

  lemma LeadsOn(w: World, v: World, a: Action, x: World)
    requires Leads(w, v) && Step(v, a, x) && Ordinary(a)
    ensures Leads(w, x)
  {
    var worlds, actions :| Steps(worlds, actions) && worlds[0] == w && worlds[|actions|] == v
                           && forall b :: b in actions ==> Ordinary(b);
    var more, acts := worlds + [x], actions + [a];
    assert Steps(more, acts) && more[0] == w && more[|acts|] == x;
  }

  lemma LeadsTransitive(w: World, v: World, x: World)
    requires Leads(w, v) && Leads(v, x)
    ensures Leads(w, x)
  {
    var ws, acts :| Steps(ws, acts) && ws[0] == w && ws[|acts|] == v && forall b :: b in acts ==> Ordinary(b);
    var us, more :| Steps(us, more) && us[0] == v && us[|more|] == x && forall b :: b in more ==> Ordinary(b);
    var all, both := ws + us[1..], acts + more;
    forall i | 0 <= i < |both| ensures Step(all[i], both[i], all[i + 1]) {
      if i >= |acts| { assert Step(us[i - |acts|], more[i - |acts|], us[i - |acts| + 1]); }
    }
    assert Steps(all, both) && all[0] == w && all[|both|] == x;
  }

  lemma OrdinaryStepKeeps(w: World, a: Action, v: World)
    requires Books(w) && Step(w, a, v) && Ordinary(a)
    ensures Books(v) && w.freed <= v.freed && v.cap == w.cap
    ensures w.cap > 0 && Capped(w, w.cap) ==> Capped(v, w.cap)
  {
    OtherStepsKeepBooks(w, a, v);
    if w.cap > 0 && Capped(w, w.cap) { StepKeepsCap(w, a, v, w.cap); }
  }

  lemma {:induction false} StepsKeep(worlds: seq<World>, actions: seq<Action>, i: nat)
    requires Steps(worlds, actions) && Books(worlds[0]) && i < |worlds|
    requires forall a :: a in actions ==> Ordinary(a)
    ensures Books(worlds[i]) && worlds[0].freed <= worlds[i].freed && worlds[i].cap == worlds[0].cap
    ensures worlds[0].cap > 0 && Capped(worlds[0], worlds[0].cap) ==> Capped(worlds[i], worlds[0].cap)
  {
    if i > 0 {
      StepsKeep(worlds, actions, i - 1);
      assert actions[i - 1] in actions;
      OrdinaryStepKeeps(worlds[i - 1], actions[i - 1], worlds[i]);
    }
  }

  lemma LeadsKeeps(w: World, v: World)
    requires Leads(w, v) && Books(w)
    ensures Books(v) && w.freed <= v.freed && v.cap == w.cap
  {
    var worlds, actions :| Steps(worlds, actions) && worlds[0] == w && worlds[|actions|] == v
                           && forall a :: a in actions ==> Ordinary(a);
    StepsKeep(worlds, actions, |actions|);
  }

  // ------------------------------------------------------------ a tick that is not cut short

  /** Slots of a pool that were never issued. */
  lemma FreshSlots(used: set<Slot>, pool: string, count: nat) returns (batch: set<Slot>)
    ensures |batch| == count && batch !! used && forall s :: s in batch ==> s.pool == pool
    decreases count
  {
    if count == 0 {
      batch := {};
    } else {
      var n := Above(used);
      var rest := FreshSlots(used + {Slot(pool, n)}, pool, count - 1);
      batch := rest + {Slot(pool, n)};
    }
  }

  lemma Above(used: set<Slot>) returns (n: nat)
    ensures forall s :: s in used ==> s.n < n
    decreases |used|
  {
    if used == {} {
      n := 0;
    } else {
      var s :| s in used;
      var m := Above(used - {s});
      n := Max(m, s.n + 1);
      assert forall t :: t in used ==> t == s || t in used - {s};
    }
  }

  /** Reading `docker ps` and granting: a batch of new slots. */
  lemma GrantSteps(s: World, w: World, pool: string, want: int) returns (v: World, batch: set<Slot>)
    requires Leads(s, w) && w.lock.None? && want > 0
    ensures Leads(s, v) && |batch| == Grant(w.cap, |w.visible|, w.reserved, want) && batch !! Issued(w) + w.visible
    ensures v == w.(reserved := w.reserved + |batch|, starting := w.starting + batch)
  {
    batch := FreshSlots(Issued(w) + w.visible, pool, Grant(w.cap, |w.visible|, w.reserved, want));
    var x := w.(lock := Some(Section(pool, want, w.cap, |w.visible|)));
    v := w.(reserved := w.reserved + |batch|, starting := w.starting + batch);
    LeadsOn(s, w, ReadPs(pool, want), x);
    LeadsOn(s, x, MakeGrant(batch), v);
  }

  /** One submitted spawn: its container appears or fails, and its worker gives the slot back. */
  lemma SpawnSteps(s: World, w: World, slot: Slot, started: bool) returns (v: World)
    requires Leads(s, w) && w.lock.None? && slot in w.starting
    ensures Leads(s, v) && v.lock.None? && v.cap == w.cap
    ensures v.starting == w.starting - {slot} && v.freed == w.freed + {slot}
    ensures v.reserved == Released(w.reserved, 1) && v.settled == w.settled + {slot} - {slot}
    ensures v.visible == if started then w.visible + {slot} else w.visible
  {
    var x := w.(starting := w.starting - {slot}, settled := w.settled + {slot});
    if started {
      x := x.(visible := w.visible + {slot});
      LeadsOn(s, w, Appear(slot), x);
    } else {
      LeadsOn(s, w, Fail(slot), x);
    }
    v := x.(settled := x.settled - {slot}, freed := x.freed + {slot}, reserved := Released(x.reserved, 1));
    LeadsOn(s, x, ReleaseOne(slot), v);
  }

  /** What the rest of the system does between two of a tick's spawns: any ordinary steps of other pools. */
  ghost predicate OthersAct(rest: World -> World, batch: set<Slot>) {
    forall x: World :: x.lock.None? && Books(x) ==>
      Leads(x, rest(x)) && rest(x).lock.None? && batch * x.starting <= rest(x).starting
  }

  /** All of a batch, whatever each `docker run` does and whatever happens in between. */
  lemma BatchSteps(s: World, w: World, whole: set<Slot>, batch: set<Slot>, started: set<Slot>, rest: World -> World)
    returns (v: World)
    requires Books(s) && Leads(s, w) && w.lock.None? && OthersAct(rest, whole)
    requires batch <= whole && batch <= w.starting
    ensures Leads(s, v) && v.lock.None? && Books(v) && batch <= v.freed && w.freed <= v.freed
    ensures (whole * w.starting) - batch <= v.starting
    decreases |batch|
  {
    LeadsKeeps(s, w);
    if batch == {} {
      v := w;
    } else {
      var slot :| slot in batch;
      var x := SpawnSteps(s, w, slot, slot in started);
      LeadsKeeps(s, x);
      var y := rest(x);
      LeadsTransitive(s, x, y);
      LeadsKeeps(x, y);
      v := BatchSteps(s, y, whole, batch - {slot}, started, rest);
    }
  }

  lemma CountedSlotsAreOthers(v: World, batch: set<Slot>)
    requires Books(v) && batch <= v.freed
    ensures v.reserved == |(v.starting + v.settled) - batch|
  {
    assert (v.starting + v.settled) - batch == v.starting + v.settled;
  }

  /** Granted, spawned and released between other pools' steps: every granted slot is spent, and the
      counter is what other slots account for. */
  lemma GrantAndSpawn(w: World, pool: string, want: int, started: set<Slot>, rest: set<Slot> -> World -> World)
    returns (v: World, batch: set<Slot>)
    requires Books(w) && w.lock.None? && forall b: set<Slot> :: OthersAct(rest(b), b)
    ensures Leads(w, v) && v.lock.None? && |batch| == Grant(w.cap, |w.visible|, w.reserved, want)
    ensures batch !! Issued(w) + w.visible && batch <= v.freed
    ensures Books(v) && v.reserved == |(v.starting + v.settled) - batch|
  {
    LeadsNowhere(w);
    if want <= 0 {
      v, batch := w, {};
    } else {
      var y;
      y, batch := GrantSteps(w, w, pool, want);
      assert OthersAct(rest(batch), batch);
      v := BatchSteps(w, y, batch, batch, started, rest(batch));
    }
    CountedSlotsAreOthers(v, batch);
  }

  lemma SomeOf(batch: set<Slot>, n: nat) returns (part: set<Slot>)
    requires n <= |batch|
    ensures part <= batch && |part| == n
    decreases |batch|
  {
    if n == |batch| {
      part := batch;
    } else {
      var slot :| slot in batch;
      part := SomeOf(batch - {slot}, n);
    }
  }

  /** The `finally` of a call whose submitted spawns have all been released. */
  lemma GivesBack(y: World, batch: set<Slot>, submitted: set<Slot>) returns (v: World)
    requires Books(y) && y.lock.None? && submitted <= batch && submitted <= y.freed && batch - submitted <= y.starting
    ensures var unused := batch - submitted;
            && Step(y, GiveBack(batch, unused), v) && |unused| == |batch| - |submitted|
            && v.reserved == Released(y.reserved, |batch|)
            && (Books(v) <==> |submitted| == 0 || y.starting + y.settled == unused)
  {
    var unused := batch - submitted;
    SetSplit(batch, submitted);
    v := y.(starting := y.starting - unused, freed := y.freed + unused, reserved := Released(y.reserved, |batch|));
    assert batch - unused == submitted;
    assert |submitted| == 0 <==> batch == unused;
    StepKeepsBooksIff(y, GiveBack(batch, unused), v);
  }

  /** A call whose submissions raise after n spawns is one too, up to its `finally`, which gives back the
      whole grant: a step of the protocol that keeps the books exactly when n is zero or the call's own
      unsubmitted slots are all that is reserved by then. */
  lemma RaisedCallFollowsProtocol(w: World, pool: string, want: int, n: nat, started: set<Slot>,
                                  rest: set<Slot> -> World -> World)
    returns (y: World, v: World, batch: set<Slot>, unused: set<Slot>)
    requires Books(w) && w.lock.None? && forall b: set<Slot> :: OthersAct(rest(b), b)
    requires 0 < want && n <= Grant(w.cap, |w.visible|, w.reserved, want)
    ensures Leads(w, y) && Books(y) && Step(y, GiveBack(batch, unused), v)
    ensures |batch| == Grant(w.cap, |w.visible|, w.reserved, want) && unused <= batch && |unused| == |batch| - n
    ensures v.reserved == Released(y.reserved, |batch|)
    ensures Books(v) <==> n == 0 || y.starting + y.settled == unused
  {
    LeadsNowhere(w);
    var x;
    x, batch := GrantSteps(w, w, pool, want);
    assert OthersAct(rest(batch), batch);
    var submitted := SomeOf(batch, n);
    y := BatchSteps(w, x, batch, submitted, started, rest(batch));
    unused := batch - submitted;
    v := GivesBack(y, batch, submitted);
  }

  /** A tick of a repository or organisation pool whose submissions do not raise is such a stretch of a
      run, with one slot for each spawn it submits. */
  lemma TickFollowsProtocol(w: World, pool: Scaler.Pool, inspection: Scaler.Inspection,
                            log: seq<RunnerOperations.Operation>, started: set<Slot>,
                            rest: set<Slot> -> World -> World) returns (v: World, batch: set<Slot>)
    requires Books(w) && w.lock.None? && forall b: set<Slot> :: OthersAct(rest(b), b)
    requires log == Scaler.TickLog(pool, inspection, false, w.cap, |w.visible|, w.reserved)
    ensures Leads(w, v) && |batch| == RunnerOperations.SpawnsIn(log)
    ensures batch !! Issued(w) + w.visible && batch <= v.freed
    ensures Books(v) && v.reserved == |(v.starting + v.settled) - batch|
  {
    var want := Scaler.DesiredSpawns(pool, inspection.running, inspection.busy, inspection.queued);
    Scaler.TickLogSpawns(pool, inspection, false, w.cap, |w.visible|, w.reserved);
    v, batch := GrantAndSpawn(w, pool.key.name, want, started, rest);
  }

  /** So is a tick of a personal pool, with one slot for each spawn it allocates. */
  lemma PersonalTickFollowsProtocol(w: World, pool: Scaler.Pool, items: seq<PersonalPool.Inspection>,
                                    ordered: seq<PersonalPool.Inspection>, allocations: map<string, nat>,
                                    log: seq<RunnerOperations.Operation>, started: set<Slot>,
                                    rest: set<Slot> -> World -> World) returns (v: World, batch: set<Slot>)
    requires Books(w) && w.lock.None? && forall b: set<Slot> :: OthersAct(rest(b), b)
    requires var want := Scaler.PersonalDemand(pool, items);
             Scaler.IsPlan(pool, items, Grant(w.cap, |w.visible|, w.reserved, want), ordered, allocations)
    requires RunnerOperations.SpawnsIn(log) == Sum(PersonalPool.Spawns(ordered, allocations))
    ensures Leads(w, v) && |batch| == RunnerOperations.SpawnsIn(log)
    ensures batch !! Issued(w) + w.visible && batch <= v.freed
    ensures Books(v) && v.reserved == |(v.starting + v.settled) - batch|
  {
    v, batch := GrantAndSpawn(w, pool.key.name, Scaler.PersonalDemand(pool, items), started, rest);
  }

  // ------------------------------------------------------------ a release that is not exact

  /** Fewer slots are counted than are held. */
  ghost predicate Short(w: World) {
    && w.lock.None? && w.cap > 0 && w.reserved >= 0
    && w.starting !! w.settled && |w.starting| + |w.settled| > w.reserved
  }

  ghost predicate OverCap(w: World) { |w.visible| + |w.starting| > w.cap }

  /** Every container there is exits. */
  lemma ExitAll(s: World, w: World) returns (v: World)
    requires Leads(s, w)
    ensures Leads(s, v) && v == w.(visible := {})
    decreases |w.visible|
  {
    if w.visible == {} {
      v := w;
    } else {
      var slot :| slot in w.visible;
      var x := w.(visible := w.visible - {slot});
      LeadsOn(s, w, Exit(slot), x);
      v := ExitAll(s, x);
    }
  }

  /** Workers release until none is left to, or the counter is at zero. */
  lemma ReleaseSettled(s: World, w: World) returns (v: World)
    requires Leads(s, w) && Short(w)
    ensures Leads(s, v) && Short(v) && (v.settled == {} || v.reserved == 0)
    ensures v.visible == w.visible && v.cap == w.cap
    decreases |w.settled|
  {
    if w.settled == {} || w.reserved == 0 {
      v := w;
    } else {
      var slot :| slot in w.settled;
      var x := w.(settled := w.settled - {slot}, freed := w.freed + {slot}, reserved := Released(w.reserved, 1));
      LeadsOn(s, w, ReleaseOne(slot), x);
      v := ReleaseSettled(s, x);
    }
  }

  lemma SumOfParts(a: set<Slot>, b: set<Slot>)
    requires a !! b
    ensures |a + b| == |a| + |b|
  {
  }

  /** With nothing settled, one grant fills the cap beside slots that are not counted. */
  lemma OneGrantBreaks(s: World, w: World) returns (v: World)
    requires Leads(s, w) && Short(w) && w.visible == {} && w.settled == {}
    ensures Leads(s, v) && OverCap(v) && v.cap == w.cap
  {
    if |w.starting| > w.cap {
      v := w;
    } else {
      var batch;
      v, batch := GrantSteps(s, w, "other", w.cap);
      SumOfParts(w.starting, batch);
    }
  }

  /** With the counter at zero, a grant fills the cap, a release makes room in the counter only, and a
      second grant is one too many. */
  lemma TwoGrantsBreak(s: World, w: World) returns (v: World)
    requires Leads(s, w) && Short(w) && w.visible == {} && w.settled != {} && w.reserved == 0
    ensures Leads(s, v) && OverCap(v) && v.cap == w.cap
  {
    var x, batch := GrantSteps(s, w, "other", w.cap);
    SumOfParts(w.starting, batch);
    if w.starting != {} {
      v := x;
    } else {
      var slot :| slot in x.settled;
      var y := x.(settled := x.settled - {slot}, freed := x.freed + {slot}, reserved := Released(x.reserved, 1));
      LeadsOn(s, x, ReleaseOne(slot), y);
      var more;
      v, more := GrantSteps(s, y, "other", 1);
      SumOfParts(y.starting, more);
    }
  }

  /** From any state that counts fewer slots than are held, ordinary steps lead past the cap. */
  lemma ShortBreaksTheCap(w: World) returns (v: World)
    requires Short(w)
    ensures Leads(w, v) && OverCap(v) && v.cap == w.cap
  {
    LeadsNowhere(w);
    var x := ExitAll(w, w);
    var y := ReleaseSettled(w, x);
    if y.settled == {} {
      v := OneGrantBreaks(w, y);
    } else {
      v := TwoGrantsBreak(w, y);
    }
  }

  /** After a release, ordinary steps with the cap left alone can pass the cap if and only if the release
      was not exact - provided the cap held. */
  lemma ReleaseCanBreakTheCapIff(w: World, batch: set<Slot>, unused: set<Slot>, v: World)
    requires Books(w) && Capped(w, w.cap) && w.cap > 0 && Step(w, GiveBack(batch, unused), v)
    ensures (exists x: World :: Leads(v, x) && OverCap(x)) <==> !Exact(w, GiveBack(batch, unused))
  {
    GiveBackTooMuch(w, batch, unused, v);
    if Exact(w, GiveBack(batch, unused)) {
      StepKeepsBooksIff(w, GiveBack(batch, unused), v);
      StepKeepsCap(w, GiveBack(batch, unused), v, w.cap);
      forall x | Leads(v, x) ensures !OverCap(x) { LeadsKeepsCap(v, x); }
    } else {
      var x := ShortBreaksTheCap(v);
    }
  }

  lemma LeadsKeepsCap(w: World, v: World)
    requires Leads(w, v) && Books(w) && w.cap > 0 && Capped(w, w.cap)
    ensures !OverCap(v)
  {
    var worlds, actions :| Steps(worlds, actions) && worlds[0] == w && worlds[|actions|] == v
                           && forall a :: a in actions ==> Ordinary(a);
    StepsKeep(worlds, actions, |actions|);
  }

  // ------------------------------------------------------------ one such release

  function Idle(): World { World(3, 0, None, {}, {}, {}, {}) }

  function A(n: nat): Slot { Slot("a", n) }

  function B(): Slot { Slot("b", 0) }

  /** Pool "a" has been granted two slots and is about to submit; nobody else holds one. */
  function AtCall(): World { World(3, 2, None, {}, {A(0), A(1)}, {}, {}) }

  /** Its first spawn was submitted, started and returned, the second submission raised, and meanwhile
      pool "b" was granted a slot: `finally` is about to give two back. */
  function AtFinally(): World { World(3, 2, None, {A(0)}, {A(1), B()}, {}, {A(0)}) }

  function AfterFinally(): World { World(3, 0, None, {A(0)}, {B()}, {}, {A(0), A(1)}) }

  lemma CallReached()
    ensures Init(Idle()) && Leads(Idle(), AtCall())
  {
    var w := Idle();
    var w1 := w.(lock := Some(Section("a", 2, 3, 0)));
    LeadsNowhere(w);
    LeadsOn(w, w, ReadPs("a", 2), w1);
    assert A(0) != A(1) && |{A(0), A(1)}| == 2;
    assert w1.starting + {A(0), A(1)} == AtCall().starting;
    LeadsOn(w, w1, MakeGrant({A(0), A(1)}), AtCall());
  }

  lemma FinallyReached()
    ensures Leads(AtCall(), AtFinally())
  {
    var w := AtCall();
    LeadsNowhere(w);
    var w1 := SpawnSteps(w, w, A(0), true);
    assert A(0) != A(1) && {A(0), A(1)} - {A(0)} == {A(1)} && {} + {A(0)} - {A(0)} == {};
    var w2 := w1.(lock := Some(Section("b", 1, 3, 1)));
    assert w1 == World(3, 1, None, {A(0)}, {A(1)}, {}, {A(0)}) && |w1.visible| == 1;
    LeadsOn(w, w1, ReadPs("b", 1), w2);
    assert |{B()}| == 1 && B() != A(0) && B() != A(1);
    assert w2.starting + {B()} == AtFinally().starting;
    LeadsOn(w, w2, MakeGrant({B()}), AtFinally());
  }

  /** A run from an idle start, through a call during which no other slot is reserved when it begins, to
      more than three containers under a cap of 3. */
  lemma OverReleaseBreaksTheCap() returns (x: World)
    ensures Init(Idle()) && Leads(Idle(), AtCall()) && AtCall().starting + AtCall().settled == {A(0), A(1)}
    ensures Leads(AtCall(), AtFinally()) && Step(AtFinally(), GiveBack({A(0), A(1)}, {A(1)}), AfterFinally())
    ensures !Exact(AtFinally(), GiveBack({A(0), A(1)}, {A(1)}))
    ensures Leads(AfterFinally(), x) && x.cap == 3 && OverCap(x)
  {
    CallReached();
    FinallyReached();
    assert A(0) != A(1) && B() != A(1) && |{A(0), A(1)}| == 2;
    assert {A(0), A(1)} - {A(1)} == {A(0)} && AtFinally().starting - {A(1)} == {B()};
    assert AtFinally().freed + {A(1)} == {A(0), A(1)};
    assert B() in AtFinally().starting;
    x := ShortBreaksTheCap(AfterFinally());
  }
}
