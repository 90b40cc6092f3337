/** The bounded cache of personal-account repository discoveries. */
module RepositoryCache {
  import opened Common

  const MAX_REPOSITORY_CACHE_ENTRIES := 128

  datatype Key = Key(pool: string, owner: string, digest: string)

  datatype Entry = Entry(repositories: seq<string>, expiresAt: real)

  function Lookup(cache: map<Key, Entry>, key: Key): Option<Entry> {
    if key in cache then Some(cache[key]) else None
  }

  predicate IsFresh(cached: Option<Entry>, now: real) { cached.Some? && now < cached.value.expiresAt }

  /** What a call returns, given what it found cached and what discovery (if made) brought. */
  function Answer(cached: Option<Entry>, now: real, discovered: Option<seq<string>>): seq<string> {
    if IsFresh(cached, now) then cached.value.repositories
    else if discovered.Some? then discovered.value
    else if cached.Some? then cached.value.repositories
    else []
  }

  ghost predicate IsOldest(cache: map<Key, Entry>, key: Key) {
    key in cache && forall k :: k in cache ==> cache[key].expiresAt <= cache[k].expiresAt
  }

  /** `_store_repositories`: a full cache first drops an entry that expires soonest. */
  ghost predicate Stores(cache: map<Key, Entry>, key: Key, entry: Entry, after: map<Key, Entry>) {
    if key !in cache && |cache| >= MAX_REPOSITORY_CACHE_ENTRIES then
      exists oldest :: IsOldest(cache, oldest) && after == (cache - {oldest})[key := entry]
    else
      after == cache[key := entry]
  }

  /** What a finished call leaves in the cache. */
  ghost predicate Settles(cache: map<Key, Entry>, key: Key, cached: Option<Entry>, now: real, ttl: nat,
                          discovered: Option<seq<string>>, after: map<Key, Entry>) {
    if IsFresh(cached, now) || discovered.None? then after == cache
    else if ttl == 0 then after == cache - {key}
    else Stores(cache, key, Entry(discovered.value, now + ttl as real), after)
  }

  /** A call between its two lock sections: it has looked the key up and is asking GitHub. */
  datatype Call = Call(key: Key, now: real, cached: Option<Entry>)

  datatype World = World(
    cache: map<Key, Entry>,
    calls: map<nat, Call>,
    recorded: map<Key, Entry>)   // history: the last discovery stored for each key

  datatype Action =
    | Begin(id: nat, key: Key, now: real)
    | End(id: nat, ttl: nat, discovered: Option<seq<string>>)

  /** Lanes keep two calls for one key from overlapping; calls for other keys interleave freely. */
  ghost predicate Step(w: World, a: Action, v: World) {
    match a
    case Begin(id, key, now) =>
      && id !in w.calls && (forall other :: other in w.calls ==> w.calls[other].key != key)
      && v == w.(calls := w.calls[id := Call(key, now, Lookup(w.cache, key))])
    case End(id, ttl, discovered) =>
      && id in w.calls
      && var call := w.calls[id];
         && Settles(w.cache, call.key, call.cached, call.now, ttl, discovered, v.cache)
         && v.calls == w.calls - {id}
         && v.recorded == if Records(call, ttl, discovered)
                          then w.recorded[call.key := Entry(discovered.value, call.now + ttl as real)] else w.recorded
  }

  ghost predicate Init(w: World) { w.cache == map[] && w.calls == map[] && w.recorded == map[] }

  ghost predicate Run(worlds: seq<World>, actions: seq<Action>) {
    && |worlds| == |actions| + 1 && Init(worlds[0])
    && forall i :: 0 <= i < |actions| ==> Step(worlds[i], actions[i], worlds[i + 1])
  }

  ghost predicate IsRecorded(recorded: map<Key, Entry>, key: Key, entry: Entry) {
    key in recorded && recorded[key] == entry
  }

  ghost predicate CacheRecorded(w: World) {
    && |w.cache| <= MAX_REPOSITORY_CACHE_ENTRIES
    && (forall k :: k in w.cache ==> IsRecorded(w.recorded, k, w.cache[k]))
  }

  ghost predicate CallsRecorded(w: World) {
    forall id :: id in w.calls && w.calls[id].cached.Some? ==>
      IsRecorded(w.recorded, w.calls[id].key, w.calls[id].cached.value)
  }

  ghost predicate OneCallPerKey(w: World) {
    forall id, other :: id in w.calls && other in w.calls && id != other ==> w.calls[id].key != w.calls[other].key
  }

  lemma SizeAfterInsert(cache: map<Key, Entry>, key: Key, entry: Entry)
    ensures |cache[key := entry]| == if key in cache then |cache| else |cache| + 1
  {
    var after := cache[key := entry];
    if key in cache {
      assert after.Keys == cache.Keys;
      assert |after.Keys| == |after| && |cache.Keys| == |cache|;
    } else {
      assert after.Keys == cache.Keys + {key};
      assert |after.Keys| == |after| && |cache.Keys| == |cache|;
    }
  }

  lemma SizeAfterRemove(cache: map<Key, Entry>, key: Key)
    ensures |cache - {key}| == if key in cache then |cache| - 1 else |cache|
  {
    assert (cache - {key}).Keys == cache.Keys - {key};
    assert |(cache - {key}).Keys| == |cache - {key}| && |cache.Keys| == |cache|;
  }

  lemma StoreStaysBounded(cache: map<Key, Entry>, key: Key, entry: Entry, after: map<Key, Entry>)
    requires |cache| <= MAX_REPOSITORY_CACHE_ENTRIES && Stores(cache, key, entry, after)
    ensures |after| <= MAX_REPOSITORY_CACHE_ENTRIES
    ensures key in after && after[key] == entry
    ensures forall k :: k in after && k != key ==> k in cache && after[k] == cache[k]
  {
    SizeAfterInsert(cache, key, entry);
    if key !in cache && |cache| >= MAX_REPOSITORY_CACHE_ENTRIES {
      var oldest :| IsOldest(cache, oldest) && after == (cache - {oldest})[key := entry];
      SizeAfterRemove(cache, oldest);
      SizeAfterInsert(cache - {oldest}, key, entry);
    }
  }

  predicate Records(call: Call, ttl: nat, discovered: Option<seq<string>>) {
    !IsFresh(call.cached, call.now) && discovered.Some? && ttl != 0
  }

  lemma SettleKeeps(cache: map<Key, Entry>, call: Call, ttl: nat, discovered: Option<seq<string>>,
                    after: map<Key, Entry>)
    requires |cache| <= MAX_REPOSITORY_CACHE_ENTRIES
    requires Settles(cache, call.key, call.cached, call.now, ttl, discovered, after)
    ensures |after| <= MAX_REPOSITORY_CACHE_ENTRIES
    ensures Records(call, ttl, discovered) ==>
              call.key in after && after[call.key] == Entry(discovered.value, call.now + ttl as real)
    ensures forall k :: k in after && (k != call.key || !Records(call, ttl, discovered)) ==>
              k in cache && after[k] == cache[k]
  {
    if Records(call, ttl, discovered) {
      StoreStaysBounded(cache, call.key, Entry(discovered.value, call.now + ttl as real), after);
    } else {
      SizeAfterRemove(cache, call.key);
    }
  }

  lemma StepKeepsCache(w: World, a: Action, v: World)
    requires CacheRecorded(w) && Step(w, a, v)
    ensures CacheRecorded(v)
  {
    if a.End? {
      SettleKeeps(w.cache, w.calls[a.id], a.ttl, a.discovered, v.cache);
    }
  }

  lemma StepKeepsCalls(w: World, a: Action, v: World, id: nat)
    requires CacheRecorded(w) && CallsRecorded(w) && OneCallPerKey(w) && Step(w, a, v)
    requires id in v.calls && v.calls[id].cached.Some?
    ensures IsRecorded(v.recorded, v.calls[id].key, v.calls[id].cached.value)
  {
    match a
    case Begin(_, key, _) =>
      if id !in w.calls { assert IsRecorded(w.recorded, key, w.cache[key]); }
    case End(done, _, _) =>
      assert id != done && w.calls[id].key != w.calls[done].key;
  }

  lemma StepKeepsOneCall(w: World, a: Action, v: World)
    requires OneCallPerKey(w) && Step(w, a, v)
    ensures OneCallPerKey(v)
  {
  }

  lemma {:induction false} InvInEveryRun(worlds: seq<World>, actions: seq<Action>, i: nat)
    requires Run(worlds, actions) && i < |worlds|
    ensures CacheRecorded(worlds[i]) && CallsRecorded(worlds[i]) && OneCallPerKey(worlds[i])
  {
    if i > 0 {
      InvInEveryRun(worlds, actions, i - 1);
      var w, v := worlds[i - 1], worlds[i];
      assert Step(w, actions[i - 1], v);
      StepKeepsCache(w, actions[i - 1], v);
      StepKeepsOneCall(w, actions[i - 1], v);
      forall id | id in v.calls && v.calls[id].cached.Some?
        ensures IsRecorded(v.recorded, v.calls[id].key, v.calls[id].cached.value)
      {
        StepKeepsCalls(w, actions[i - 1], v, id);
      }
    }
  }

  /** The answer is this call's own discovery, or the last one recorded for the key - an expired one
      only when this call's refresh failed - or nothing when there never was one to fall back on. */
  ghost predicate SoundAnswer(w: World, id: nat, discovered: Option<seq<string>>) {
    && id in w.calls
    && var call := w.calls[id];
       var answer := Answer(call.cached, call.now, discovered);
       || (discovered.Some? && answer == discovered.value)
       || (call.key in w.recorded && answer == w.recorded[call.key].repositories
           && (call.now >= w.recorded[call.key].expiresAt ==> discovered.None?))
       || (call.cached.None? && discovered.None? && answer == [])
  }

  /** In every run the cache is bounded and every answer is sound. */
  lemma AnswersAreSound(worlds: seq<World>, actions: seq<Action>, i: nat)
    requires Run(worlds, actions) && i < |actions| && actions[i].End?
    ensures |worlds[i].cache| <= MAX_REPOSITORY_CACHE_ENTRIES
    ensures SoundAnswer(worlds[i], actions[i].id, actions[i].discovered)
  {
    InvInEveryRun(worlds, actions, i);
    assert Step(worlds[i], actions[i], worlds[i + 1]);
    var call := worlds[i].calls[actions[i].id];
    if call.cached.Some? {
      assert IsRecorded(worlds[i].recorded, call.key, call.cached.value);
    }
  }
}
