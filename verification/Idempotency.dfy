/** Retried control actions: one attempt at a time per key, and the first success is replayed. */
module Idempotency {
  /** The set of claimed keys: a request holds its key from `claim` until it has answered. */
  class InFlightKeys {
    var keys: set<string>

    constructor ()
      ensures keys == {}
    {
      keys := {};
    }

    method Claim(key: string) returns (owned: bool)
      modifies this
      ensures owned <==> key !in old(keys)
      ensures keys == old(keys) + {key}
    {
      if key in keys {
        return false;
      }
      keys := keys + {key};
      owned := true;
    }

    method Release(key: string)
      modifies this
      ensures keys == old(keys) - {key}
    {
      keys := keys - {key};
    }
  }

  /** How a view ends: with a status and a body, or with an exception. */
  datatype View = Returned(status: int, body: string) | Raised

  predicate Succeeds(v: View) { v.Returned? && 200 <= v.status < 300 }

  datatype Answer = InProgress | Replayed(body: string) | Ran(view: View)

  class Handler {
    const inFlight: InFlightKeys
    var responses: map<string, string>

    constructor ()
      ensures fresh(inFlight) && inFlight.keys == {} && responses == map[]
    {
      inFlight := new InFlightKeys();
      responses := map[];
    }

    /** One request with no other in between; `view` is how the view ends if it runs. */
    method Handle(key: string, view: View) returns (answer: Answer)
      modifies this, inFlight
      ensures inFlight.keys == old(inFlight.keys)
      ensures answer.InProgress? <==> key in old(inFlight.keys)
      ensures answer.Replayed? <==> key !in old(inFlight.keys) && key in old(responses)
      ensures answer.Replayed? ==> answer.body == old(responses)[key]
      ensures answer.Ran? ==> answer.view == view
      ensures key in responses <==> key in old(responses)
                                    || (answer.Ran? && view.Returned? && 200 <= view.status < 300)
      ensures responses == if answer.Ran? && Succeeds(view) then old(responses)[key := view.body] else old(responses)
    {
      var owned := inFlight.Claim(key);
      if !owned {
        return InProgress;
      }
      if key in responses {
        answer := Replayed(responses[key]);
      } else {
        answer := Ran(view);
        if view.Returned? && 200 <= view.status < 300 {
          responses := responses[key := view.body];
        }
      }
      inFlight.Release(key);
    }
  }

  // ------------------------------------------------------------ requests side by side

  datatype Phase =
    | Claimed                    // owns its key, has not looked for a recorded response
    | Running                    // found none, so the view runs
    | Succeeded(status: int, body: string)  // the view returned 2xx, nothing recorded yet
    | Ending(answer: Answer)     // in `finally`

  datatype Request = Request(key: string, phase: Phase)

  datatype Ended = Ended(key: string, answer: Answer)

  datatype World = World(
    inFlight: map<string, nat>,     // claimed keys; which request claimed them is history
    responses: map<string, string>,
    requests: map<nat, Request>,    // requests that own a key
    successes: seq<(string, string)>,  // history: key and body of every view that returned 2xx
    ended: seq<Ended>,              // history: every answer given
    lost: seq<string>)              // history: keys whose recorded success was never written, or was pruned

  datatype Action =
    | Arrive(id: nat, key: string)
    | Look(id: nat)
    | Finish(id: nat, view: View)
    | Remember(id: nat)
    | RememberFails(id: nat)
    | Release(id: nat)
    | Prune(key: string)

  ghost predicate Step(w: World, a: Action, v: World) {
    match a
    case Arrive(id, key) =>
      && id !in w.requests
      && v == if key in w.inFlight then w.(ended := w.ended + [Ended(key, InProgress)])
              else w.(inFlight := w.inFlight[key := id], requests := w.requests[id := Request(key, Claimed)])
    case Look(id) =>
      && id in w.requests && w.requests[id].phase.Claimed?
      && var key := w.requests[id].key;
         var phase := if key in w.responses then Ending(Replayed(w.responses[key])) else Running;
         v == w.(requests := w.requests[id := Request(key, phase)])
    case Finish(id, view) =>
      && id in w.requests && w.requests[id].phase.Running?
      && var key := w.requests[id].key;
         v == if Succeeds(view)
              then w.(requests := w.requests[id := Request(key, Succeeded(view.status, view.body))],
                      successes := w.successes + [(key, view.body)])
              else w.(requests := w.requests[id := Request(key, Ending(Ran(view)))])
    case Remember(id) =>
      && id in w.requests && w.requests[id].phase.Succeeded?
      && var r := w.requests[id];
         v == w.(responses := w.responses[r.key := r.phase.body],
                 requests := w.requests[id := Request(r.key, Ending(Ran(Returned(r.phase.status, r.phase.body))))])
    case RememberFails(id) =>
      && id in w.requests && w.requests[id].phase.Succeeded?
      && var r := w.requests[id];
         v == w.(lost := w.lost + [r.key], requests := w.requests[id := Request(r.key, Ending(Ran(Raised)))])
    case Release(id) =>
      && id in w.requests && w.requests[id].phase.Ending?
      && var r := w.requests[id];
         v == w.(inFlight := w.inFlight - {r.key}, requests := w.requests - {id},
                 ended := w.ended + [Ended(r.key, r.phase.answer)])
    case Prune(key) =>
      v == if key in w.responses then w.(responses := w.responses - {key}, lost := w.lost + [key]) else w
  }

  ghost predicate Run(worlds: seq<World>, actions: seq<Action>) {
    && |worlds| == |actions| + 1
    && worlds[0] == World(map[], map[], map[], [], [], [])
    && forall i :: 0 <= i < |actions| ==> Step(worlds[i], actions[i], worlds[i + 1])
  }

  /** The bodies of a key's successes, first to last. */
  function Bodies(successes: seq<(string, string)>, key: string): seq<string> {
    if successes == [] then []
    else
      var last := successes[|successes| - 1];
      Bodies(successes[..|successes| - 1], key) + if last.0 == key then [last.1] else []
  }

  function Losses(lost: seq<string>, key: string): nat {
    if lost == [] then 0 else Losses(lost[..|lost| - 1], key) + if lost[|lost| - 1] == key then 1 else 0
  }

  /** A key is in flight exactly while one request owns it. */
  ghost predicate OneOwner(w: World) {
    && (forall id :: id in w.requests ==> w.requests[id].key in w.inFlight && w.inFlight[w.requests[id].key] == id)
    && (forall key :: key in w.inFlight ==> w.inFlight[key] in w.requests && w.requests[w.inFlight[key]].key == key)
  }

  predicate Pending(w: World, key: string) {
    key in w.inFlight && w.inFlight[key] in w.requests && w.requests[w.inFlight[key]].phase.Succeeded?
  }

  ghost predicate LatestIs(bodies: seq<string>, body: string) { bodies != [] && bodies[|bodies| - 1] == body }

  /** A view runs only while nothing is recorded. */
  ghost predicate RunsUnrecorded(w: World) {
    forall id :: id in w.requests && (w.requests[id].phase.Running? || w.requests[id].phase.Succeeded?) ==>
      w.requests[id].key !in w.responses
  }

  ghost predicate RecordedIsLatest(w: World) {
    forall key :: key in w.responses ==> LatestIs(Bodies(w.successes, key), w.responses[key])
  }

  ghost predicate PendingIsLatest(w: World) {
    forall id :: id in w.requests && w.requests[id].phase.Succeeded? ==>
      LatestIs(Bodies(w.successes, w.requests[id].key), w.requests[id].phase.body)
  }

  ghost predicate Recorded(w: World) { RunsUnrecorded(w) && RecordedIsLatest(w) && PendingIsLatest(w) }

  /** Every success is recorded, about to be, or lost. */
  ghost predicate Counted(w: World) { forall key :: Balance(w, key) == 0 }

  ghost predicate Honest(w: World, key: string, a: Answer) { a.Replayed? ==> a.body in Bodies(w.successes, key) }

  ghost predicate AnswersHonest(w: World) {
    && (forall id :: id in w.requests && w.requests[id].phase.Ending? ==>
        Honest(w, w.requests[id].key, w.requests[id].phase.answer))
    && (forall e :: e in w.ended ==> Honest(w, e.key, e.answer))
  }

  ghost predicate Inv(w: World) { OneOwner(w) && Recorded(w) && Counted(w) && AnswersHonest(w) }

  lemma BodiesGrow(s: seq<(string, string)>, p: (string, string), key: string)
    ensures Bodies(s + [p], key) == Bodies(s, key) + if p.0 == key then [p.1] else []
  {
    assert (s + [p])[..|s|] == s;
  }

  lemma LossesGrow(l: seq<string>, k: string, key: string)
    ensures Losses(l + [k], key) == Losses(l, key) + if k == key then 1 else 0
  {
    assert (l + [k])[..|l|] == l;
  }

  lemma StepKeepsOneOwner(w: World, a: Action, v: World)
    requires OneOwner(w) && Step(w, a, v)
    ensures OneOwner(v)
  {
  }

  lemma StepGrowsBodies(w: World, a: Action, v: World, key: string)
    requires Step(w, a, v)
    ensures Bodies(v.successes, key)
         == Bodies(w.successes, key)
            + if a.Finish? && Succeeds(a.view) && w.requests[a.id].key == key then [a.view.body] else []
    ensures Losses(v.lost, key)
         == Losses(w.lost, key)
            + (if (a.RememberFails? && w.requests[a.id].key == key) || (a == Prune(key) && key in w.responses)
               then 1 else 0)
  {
    if a.Finish? && Succeeds(a.view) { BodiesGrow(w.successes, (w.requests[a.id].key, a.view.body), key); }
    if a.RememberFails? { LossesGrow(w.lost, w.requests[a.id].key, key); }
    if a.Prune? { LossesGrow(w.lost, a.key, key); }
  }

  lemma StepKeepsUnrecorded(w: World, a: Action, v: World)
    requires OneOwner(w) && RunsUnrecorded(w) && Step(w, a, v)
    ensures RunsUnrecorded(v)
  {
  }

  lemma StepKeepsLatest(w: World, a: Action, v: World, key: string)
    requires OneOwner(w) && Recorded(w) && Step(w, a, v) && key in v.responses
    ensures LatestIs(Bodies(v.successes, key), v.responses[key])
  {
    StepGrowsBodies(w, a, v, key);
  }

  lemma StepKeepsPendingLatest(w: World, a: Action, v: World, id: nat)
    requires OneOwner(w) && Recorded(w) && Step(w, a, v) && id in v.requests && v.requests[id].phase.Succeeded?
    ensures LatestIs(Bodies(v.successes, v.requests[id].key), v.requests[id].phase.body)
  {
    var key := v.requests[id].key;
    StepGrowsBodies(w, a, v, key);
    if !(a.Finish? && a.id == id) { assert id in w.requests && w.requests[id] == v.requests[id]; }
  }

  lemma StepKeepsRecorded(w: World, a: Action, v: World)
    requires OneOwner(w) && Recorded(w) && Step(w, a, v)
    ensures Recorded(v)
  {
    StepKeepsUnrecorded(w, a, v);
    forall key | key in v.responses ensures LatestIs(Bodies(v.successes, key), v.responses[key]) {
      StepKeepsLatest(w, a, v, key);
    }
    forall id | id in v.requests && v.requests[id].phase.Succeeded?
      ensures LatestIs(Bodies(v.successes, v.requests[id].key), v.requests[id].phase.body)
    {
      StepKeepsPendingLatest(w, a, v, id);
    }
  }

  /** Which key's success is between the view and the store changes only by these three steps. */
  lemma StepMovesPending(w: World, a: Action, v: World, key: string)
    requires OneOwner(w) && Step(w, a, v)
    ensures a.Finish? && Succeeds(a.view) && w.requests[a.id].key == key ==> !Pending(w, key) && Pending(v, key)
    ensures (a.Remember? || a.RememberFails?) && w.requests[a.id].key == key ==> Pending(w, key) && !Pending(v, key)
    ensures (a.Finish? && Succeeds(a.view) && w.requests[a.id].key == key)
         || ((a.Remember? || a.RememberFails?) && w.requests[a.id].key == key)
         || (Pending(v, key) <==> Pending(w, key))
  {
  }

  lemma StepMovesResponse(w: World, a: Action, v: World, key: string)
    requires OneOwner(w) && RunsUnrecorded(w) && Step(w, a, v)
    ensures key in v.responses <==>
              (a.Remember? && w.requests[a.id].key == key) || (key in w.responses && a != Prune(key))
    ensures a.Remember? && w.requests[a.id].key == key ==> key !in w.responses
  {
  }

  /** The successes of a key not yet accounted for. */
  function Balance(w: World, key: string): int {
    |Bodies(w.successes, key)|
    - (if key in w.responses then 1 else 0) - (if Pending(w, key) then 1 else 0) - Losses(w.lost, key)
  }

  lemma StepKeepsCount(w: World, a: Action, v: World, key: string)
    requires OneOwner(w) && RunsUnrecorded(w) && Step(w, a, v)
    ensures Balance(v, key) == Balance(w, key)
  {
    StepGrowsBodies(w, a, v, key);
    StepMovesPending(w, a, v, key);
    StepMovesResponse(w, a, v, key);
    match a
    case Finish(id, view) =>
    case Remember(id) =>
    case RememberFails(id) =>
    case Prune(k) =>
    case _ =>
  }

  lemma HonestStays(w: World, a: Action, v: World, key: string, answer: Answer)
    requires Step(w, a, v) && Honest(w, key, answer)
    ensures Honest(v, key, answer)
  {
    StepGrowsBodies(w, a, v, key);
  }

  lemma StepKeepsRequestHonest(w: World, a: Action, v: World, id: nat)
    requires RecordedIsLatest(w) && AnswersHonest(w) && Step(w, a, v)
    requires id in v.requests && v.requests[id].phase.Ending?
    ensures Honest(v, v.requests[id].key, v.requests[id].phase.answer)
  {
    var key := v.requests[id].key;
    if a.Look? && a.id == id {
      assert LatestIs(Bodies(w.successes, key), w.responses[key]);
      assert Honest(w, key, v.requests[id].phase.answer);
    }
    if id in w.requests && w.requests[id] == v.requests[id] {
      assert Honest(w, key, v.requests[id].phase.answer);
    }
    if Honest(w, key, v.requests[id].phase.answer) { HonestStays(w, a, v, key, v.requests[id].phase.answer); }
  }

  lemma StepKeepsEndedHonest(w: World, a: Action, v: World, e: Ended)
    requires AnswersHonest(w) && Step(w, a, v) && e in v.ended
    ensures Honest(v, e.key, e.answer)
  {
    assert Honest(w, e.key, e.answer);
    HonestStays(w, a, v, e.key, e.answer);
  }

  lemma StepKeepsHonest(w: World, a: Action, v: World)
    requires Recorded(w) && AnswersHonest(w) && Step(w, a, v)
    ensures AnswersHonest(v)
  {
    forall id | id in v.requests && v.requests[id].phase.Ending?
      ensures Honest(v, v.requests[id].key, v.requests[id].phase.answer)
    {
      StepKeepsRequestHonest(w, a, v, id);
    }
    forall e | e in v.ended ensures Honest(v, e.key, e.answer) { StepKeepsEndedHonest(w, a, v, e); }
  }

  lemma StepKeepsInv(w: World, a: Action, v: World)
    requires Inv(w) && Step(w, a, v)
    ensures Inv(v)
  {
    StepKeepsOneOwner(w, a, v);
    StepKeepsRecorded(w, a, v);
    forall key ensures Balance(v, key) == 0 { StepKeepsCount(w, a, v, key); }
    StepKeepsHonest(w, a, v);
  }

  lemma {:induction false} InvInEveryRun(worlds: seq<World>, actions: seq<Action>, i: nat)
    requires Run(worlds, actions) && i < |worlds|
    ensures Inv(worlds[i])
  {
    if i > 0 {
      InvInEveryRun(worlds, actions, i - 1);
      StepKeepsInv(worlds[i - 1], actions[i - 1], worlds[i]);
    }
  }

  /** In every interleaving a key's view succeeds once, and once more for each recorded success that
      was lost or pruned; with none lost, every replay returns the first success's body. */
  lemma SucceedsAtMostOnce(worlds: seq<World>, actions: seq<Action>, i: nat, key: string)
    requires Run(worlds, actions) && i < |worlds|
    ensures |Bodies(worlds[i].successes, key)| <= 1 + Losses(worlds[i].lost, key)
    ensures Losses(worlds[i].lost, key) == 0 ==>
              forall e :: e in worlds[i].ended && e.key == key && e.answer.Replayed? ==>
                Bodies(worlds[i].successes, key) == [e.answer.body]
  {
    var w := worlds[i];
    InvInEveryRun(worlds, actions, i);
    assert Balance(w, key) == 0;
    assert Pending(w, key) ==> key !in w.responses;
    forall e | e in w.ended && e.key == key && e.answer.Replayed? && Losses(w.lost, key) == 0
      ensures Bodies(w.successes, key) == [e.answer.body]
    {
      assert Honest(w, key, e.answer);
    }
  }

  predicate Untouched(w: World, key: string) { key !in w.inFlight && key !in w.responses }

  ghost predicate Unowned(w: World, key: string) { forall id :: id in w.requests ==> w.requests[id].key != key }

  ghost predicate NoArrival(actions: seq<Action>, key: string) {
    forall a :: a in actions ==> !(a.Arrive? && a.key == key)
  }

  predicate ClaimedBy(w: World, id: nat, key: string) { id in w.requests && w.requests[id] == Request(key, Claimed) }

  lemma StepKeepsUnclaimed(w: World, a: Action, v: World, key: string)
    requires Inv(w) && Step(w, a, v) && Untouched(w, key) && !(a.Arrive? && a.key == key)
    ensures Untouched(v, key)
  {
    if a.Remember? { assert w.requests[a.id].key in w.inFlight; }
  }

  lemma OwnsAlone(w: World, r: nat, id: nat)
    requires OneOwner(w) && r in w.requests && id in w.requests && r != id
    ensures w.requests[r].key != w.requests[id].key
  {
  }

  lemma StepKeepsClaim(w: World, a: Action, v: World, id: nat, key: string)
    requires Inv(w) && Step(w, a, v) && ClaimedBy(w, id, key) && a != Look(id)
    ensures ClaimedBy(v, id, key)
    ensures key !in w.responses ==> key !in v.responses
  {
    if a.Remember? && a.id != id { OwnsAlone(w, a.id, id); }
  }

  lemma LastOf(actions: seq<Action>, i: nat, j: nat)
    requires i < j <= |actions|
    ensures actions[i..j] == actions[i..j - 1] + [actions[j - 1]]
    ensures forall a :: a in actions[i..j] <==> a in actions[i..j - 1] || a == actions[j - 1]
  {
  }

  lemma LastArrival(actions: seq<Action>, i: nat, j: nat, key: string)
    requires i < j <= |actions| && NoArrival(actions[i..j], key)
    ensures NoArrival(actions[i..j - 1], key) && !(actions[j - 1].Arrive? && actions[j - 1].key == key)
  {
    LastOf(actions, i, j);
  }

  lemma {:induction false} UnclaimedUntil(worlds: seq<World>, actions: seq<Action>, i: nat, j: nat, key: string)
    requires Run(worlds, actions) && i <= j < |worlds| && Untouched(worlds[i], key)
    requires NoArrival(actions[i..j], key)
    ensures Untouched(worlds[j], key)
  {
    if i < j {
      LastArrival(actions, i, j, key);
      UnclaimedUntil(worlds, actions, i, j - 1, key);
      InvInEveryRun(worlds, actions, j - 1);
      StepKeepsUnclaimed(worlds[j - 1], actions[j - 1], worlds[j], key);
    }
  }

  lemma {:induction false} ClaimedUntil(worlds: seq<World>, actions: seq<Action>, i: nat, j: nat, id: nat, key: string)
    requires Run(worlds, actions) && i <= j < |worlds| && ClaimedBy(worlds[i], id, key)
    requires Look(id) !in actions[i..j]
    ensures ClaimedBy(worlds[j], id, key)
    ensures key !in worlds[i].responses ==> key !in worlds[j].responses
  {
    if i < j {
      LastOf(actions, i, j);
      ClaimedUntil(worlds, actions, i, j - 1, id, key);
      InvInEveryRun(worlds, actions, j - 1);
      StepKeepsClaim(worlds[j - 1], actions[j - 1], worlds[j], id, key);
    }
  }

  /** A key nobody owns and with nothing recorded is run by the request that comes first: whatever happens
      between its arrival and its look at the store, it finds nothing there. */
  lemma UnclaimedKeyRuns(worlds: seq<World>, actions: seq<Action>, i: nat, j: nat, id: nat, key: string)
    requires Run(worlds, actions) && i < j < |actions| && Untouched(worlds[i], key)
    requires actions[i] == Arrive(id, key) && actions[j] == Look(id)
    requires Look(id) !in actions[i + 1..j]
    ensures id in worlds[j + 1].requests && worlds[j + 1].requests[id] == Request(key, Running)
  {
    assert Step(worlds[i], actions[i], worlds[i + 1]);
    ClaimedUntil(worlds, actions, i + 1, j, id, key);
    assert Step(worlds[j], actions[j], worlds[j + 1]);
  }

  /** A failed attempt leaves its key free: nobody owns it, and the next request with it runs the view. */
  lemma FailedKeyRunsAgain(worlds: seq<World>, actions: seq<Action>, i: nat, j: nat, k: nat, id: nat, next: nat,
                           key: string)
    requires Run(worlds, actions) && i < j < k < |actions| && actions[i] == Release(id)
    requires id in worlds[i].requests && worlds[i].requests[id].key == key && key !in worlds[i].responses
    requires NoArrival(actions[i + 1..j], key)
    requires actions[j] == Arrive(next, key) && actions[k] == Look(next)
    requires Look(next) !in actions[j + 1..k]
    ensures Unowned(worlds[i + 1], key)
    ensures next in worlds[k + 1].requests && worlds[k + 1].requests[next] == Request(key, Running)
  {
    InvInEveryRun(worlds, actions, i + 1);
    assert Step(worlds[i], actions[i], worlds[i + 1]);
    UnclaimedUntil(worlds, actions, i + 1, j, key);
    UnclaimedKeyRuns(worlds, actions, j, k, next, key);
  }

  lemma StepKeepsResponse(w: World, a: Action, v: World, key: string)
    requires Inv(w) && Step(w, a, v) && key in w.responses && a != Prune(key)
    ensures key in v.responses && v.responses[key] == w.responses[key]
  {
  }

  lemma {:induction false} ResponseStays(worlds: seq<World>, actions: seq<Action>, i: nat, j: nat, key: string)
    requires Run(worlds, actions) && i <= j < |worlds| && key in worlds[i].responses
    requires Prune(key) !in actions[i..j]
    ensures key in worlds[j].responses && worlds[j].responses[key] == worlds[i].responses[key]
  {
    if i < j {
      LastOf(actions, i, j);
      ResponseStays(worlds, actions, i, j - 1, key);
      InvInEveryRun(worlds, actions, j - 1);
      StepKeepsResponse(worlds[j - 1], actions[j - 1], worlds[j], key);
    }
  }

  /** Until it is pruned, a recorded success is what every request with its key gets, and none of them is
      running the view. */
  lemma RecordedSuccessIsReplayed(worlds: seq<World>, actions: seq<Action>, i: nat, j: nat, id: nat, key: string)
    requires Run(worlds, actions) && i <= j < |actions| && key in worlds[i].responses
    requires Prune(key) !in actions[i..j]
    requires actions[j] == Look(id) && id in worlds[j].requests && worlds[j].requests[id].key == key
    ensures id in worlds[j + 1].requests
    ensures worlds[j + 1].requests[id] == Request(key, Ending(Replayed(worlds[i].responses[key])))
    ensures forall r :: r in worlds[j].requests && worlds[j].requests[r].key == key ==>
              !worlds[j].requests[r].phase.Running?
  {
    ResponseStays(worlds, actions, i, j, key);
    InvInEveryRun(worlds, actions, j);
    assert Step(worlds[j], actions[j], worlds[j + 1]);
  }
}
