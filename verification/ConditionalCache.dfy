/** The bounded LRU cache of validated GET responses, and why it is invisible to callers. */
module ConditionalCache {
  import opened Common

  const MAX_CONDITIONAL_CACHE_ENTRIES := 2048

  datatype Key = Key(token: string, path: string)

  datatype Entry = Entry(etag: string, data: string)

  /** An OrderedDict: oldest first, each key once. */
  type Cache = seq<(Key, Entry)>

  ghost predicate KeysDistinct(c: Cache) {
    forall i, j :: 0 <= i < j < |c| ==> c[i].0 != c[j].0
  }

  function Find(c: Cache, key: Key): Option<Entry> {
    if c == [] then None else if c[0].0 == key then Some(c[0].1) else Find(c[1..], key)
  }

  function Drop(c: Cache, key: Key): Cache {
    if c == [] then [] else if c[0].0 == key then c[1..] else [c[0]] + Drop(c[1..], key)
  }

  /** `move_to_end` on a key that is present. */
  function Touch(c: Cache, key: Key): Cache {
    if Find(c, key).Some? then Drop(c, key) + [(key, Find(c, key).value)] else c
  }

  function Newest(c: Cache, n: nat): Cache { if |c| > n then c[|c| - n..] else c }

  /** `_cache_conditional_response` for a response with this ETag. */
  function Store(c: Cache, key: Key, etag: string, data: string): Cache {
    if etag == "" then Drop(c, key)
    else Newest(Drop(c, key) + [(key, Entry(etag, data))], MAX_CONDITIONAL_CACHE_ENTRIES)
  }

  lemma {:induction false} FindMember(c: Cache, key: Key)
    ensures Find(c, key).Some? ==> (key, Find(c, key).value) in c
    ensures Find(c, key).None? ==> forall i :: 0 <= i < |c| ==> c[i].0 != key
  {
    if c != [] { FindMember(c[1..], key); }
  }

  lemma {:induction false} DropKeeps(c: Cache, key: Key)
    requires KeysDistinct(c)
    ensures KeysDistinct(Drop(c, key)) && |Drop(c, key)| <= |c|
    ensures forall p :: p in Drop(c, key) <==> p in c && p.0 != key
    ensures Find(c, key).Some? ==> |Drop(c, key)| == |c| - 1
  {
    if c != [] {
      assert c == [c[0]] + c[1..];
      if c[0].0 == key {
        forall p | p in c[1..] ensures p.0 != key {
          var k :| 0 <= k < |c[1..]| && c[1..][k] == p;
          assert c[k + 1].0 != c[0].0;
        }
      } else {
        DropKeeps(c[1..], key);
        forall p | p in Drop(c[1..], key) ensures p.0 != c[0].0 {
          var k :| 0 <= k < |c[1..]| && c[1..][k] == p;
          assert c[0].0 != c[k + 1].0;
        }
      }
    }
  }

  lemma ReplaceKeeps(c: Cache, key: Key, e: Entry)
    requires KeysDistinct(c)
    ensures KeysDistinct(Drop(c, key) + [(key, e)])
    ensures forall p :: p in Drop(c, key) + [(key, e)] <==> p == (key, e) || (p in c && p.0 != key)
    ensures |Drop(c, key)| + 1 == if Find(c, key).Some? then |c| else |c| + 1
  {
    DropKeeps(c, key);
    var d := Drop(c, key);
    forall i | 0 <= i < |d| ensures d[i].0 != key { assert d[i] in d; }
    if Find(c, key).None? { DropMissing(c, key); }
  }

  /** The cache is bounded after every store, keeps what was just stored, and loses at most the
      entry at the front. */
  lemma StoreIsBounded(c: Cache, key: Key, etag: string, data: string)
    requires KeysDistinct(c) && |c| <= MAX_CONDITIONAL_CACHE_ENTRIES && etag != ""
    ensures KeysDistinct(Store(c, key, etag, data))
    ensures |Store(c, key, etag, data)| <= MAX_CONDITIONAL_CACHE_ENTRIES
    ensures (key, Entry(etag, data)) in Store(c, key, etag, data)
    ensures forall p :: p in c && p.0 != key && p !in Store(c, key, etag, data) ==>
              |c| == MAX_CONDITIONAL_CACHE_ENTRIES && Find(c, key).None? && p == c[0]
    ensures forall p :: p in Store(c, key, etag, data) ==> p == (key, Entry(etag, data)) || (p in c && p.0 != key)
  {
    var e := Entry(etag, data);
    var all := Drop(c, key) + [(key, e)];
    ReplaceKeeps(c, key, e);
    if |all| > MAX_CONDITIONAL_CACHE_ENTRIES {
      DropMissing(c, key);
      EvictFront(c, (key, e));
    }
  }

  lemma EvictFront(c: Cache, p: (Key, Entry))
    requires |c| == MAX_CONDITIONAL_CACHE_ENTRIES && KeysDistinct(c + [p])
    ensures Newest(c + [p], MAX_CONDITIONAL_CACHE_ENTRIES) == c[1..] + [p]
    ensures KeysDistinct(c[1..] + [p])
    ensures forall q :: q in c && q !in c[1..] ==> q == c[0]
  {
    assert c == [c[0]] + c[1..];
    assert c + [p] == [c[0]] + (c[1..] + [p]);
  }

  lemma {:induction false} DropMissing(c: Cache, key: Key)
    requires Find(c, key).None?
    ensures Drop(c, key) == c
  {
    if c != [] { DropMissing(c[1..], key); }
  }

  // ------------------------------------------------------------ least recently used

  datatype Use = Stored(key: Key, etag: string, data: string) | Revalidated(key: Key)

  function Apply(c: Cache, u: Use): Cache {
    match u
    case Stored(key, etag, data) => Store(c, key, etag, data)
    case Revalidated(key) => Touch(c, key)
  }

  function After(uses: seq<Use>): Cache {
    if uses == [] then [] else Apply(After(uses[..|uses| - 1]), uses[|uses| - 1])
  }

  /** The last time a key was stored or revalidated. */
  function LastUse(uses: seq<Use>, key: Key): int {
    if uses == [] then -1
    else if uses[|uses| - 1].key == key then |uses| - 1
    else LastUse(uses[..|uses| - 1], key)
  }

  ghost predicate ByRecency(c: Cache, uses: seq<Use>) {
    forall i, j :: 0 <= i < j < |c| ==> LastUse(uses, c[i].0) < LastUse(uses, c[j].0)
  }

  lemma {:induction false} LastUseBound(uses: seq<Use>, key: Key)
    ensures LastUse(uses, key) < |uses|
  {
    if uses != [] { LastUseBound(uses[..|uses| - 1], key); }
  }

  lemma RecencyOfDrop(c: Cache, uses: seq<Use>, key: Key)
    requires KeysDistinct(c) && ByRecency(c, uses)
    ensures ByRecency(Drop(c, key), uses)
    decreases |c|
  {
    if c != [] && c[0].0 != key {
      RecencyOfDrop(c[1..], uses, key);
      DropKeeps(c[1..], key);
      forall p | p in Drop(c[1..], key) ensures LastUse(uses, c[0].0) < LastUse(uses, p.0) {
        var k :| 0 <= k < |c[1..]| && c[1..][k] == p;
        assert c[k + 1] == p;
      }
    }
  }

  /** Dropping a key and putting it back last is right when it has just been used. */
  lemma RecencyOfUse(c: Cache, uses: seq<Use>, u: Use, e: Entry)
    requires KeysDistinct(c) && ByRecency(c, uses)
    ensures ByRecency(Drop(c, u.key) + [(u.key, e)], uses + [u])
    ensures ByRecency(Drop(c, u.key), uses + [u])
    ensures KeysDistinct(Drop(c, u.key) + [(u.key, e)])
  {
    var d, more := Drop(c, u.key), uses + [u];
    RecencyOfDrop(c, uses, u.key);
    DropKeeps(c, u.key);
    assert more[..|more| - 1] == uses;
    forall i | 0 <= i < |d| ensures LastUse(more, d[i].0) == LastUse(uses, d[i].0) < |uses| && d[i].0 != u.key {
      assert d[i] in d;
      LastUseBound(uses, d[i].0);
    }
  }

  lemma RecencyOfNewest(c: Cache, uses: seq<Use>, n: nat)
    requires ByRecency(c, uses) && KeysDistinct(c)
    ensures ByRecency(Newest(c, n), uses) && KeysDistinct(Newest(c, n))
  {
  }

  lemma RecencyOfMiss(c: Cache, uses: seq<Use>, u: Use)
    requires ByRecency(c, uses) && Find(c, u.key).None?
    ensures ByRecency(c, uses + [u])
  {
    FindMember(c, u.key);
    assert (uses + [u])[..|uses|] == uses;
  }

  /** Over any sequence of uses the cache is bounded and ordered from the least recently used. */
  lemma {:induction false} CacheIsLru(uses: seq<Use>)
    ensures KeysDistinct(After(uses)) && |After(uses)| <= MAX_CONDITIONAL_CACHE_ENTRIES
    ensures ByRecency(After(uses), uses)
  {
    if uses != [] {
      var rest, u := uses[..|uses| - 1], uses[|uses| - 1];
      var c := After(rest);
      CacheIsLru(rest);
      assert uses == rest + [u];
      DropKeeps(c, u.key);
      match u
      case Stored(key, etag, data) =>
        RecencyOfUse(c, rest, u, Entry(etag, data));
        RecencyOfNewest(Drop(c, key) + [(key, Entry(etag, data))], uses, MAX_CONDITIONAL_CACHE_ENTRIES);
      case Revalidated(key) =>
        if Find(c, key).Some? {
          RecencyOfUse(c, rest, u, Find(c, key).value);
        } else {
          RecencyOfMiss(c, rest, u);
        }
    }
  }

  /** What a store evicts was used before everything it keeps, and is never what it just stored. */
  lemma EvictsLeastRecentlyUsed(uses: seq<Use>, u: Use, gone: (Key, Entry), kept: (Key, Entry))
    requires u.Stored? && u.etag != ""
    requires gone in After(uses) && gone.0 != u.key && gone !in After(uses + [u])
    requires kept in After(uses + [u])
    ensures |After(uses)| == MAX_CONDITIONAL_CACHE_ENTRIES
    ensures LastUse(uses + [u], gone.0) < LastUse(uses + [u], kept.0)
  {
    var c, more := After(uses), uses + [u];
    assert more[..|more| - 1] == uses;
    CacheIsLru(uses);
    StoreIsBounded(c, u.key, u.etag, u.data);
    LastUseBound(uses, gone.0);
    if kept.0 != u.key {
      var k :| 0 <= k < |c| && c[k] == kept;
      assert k > 0;
    }
  }

  // ------------------------------------------------------------ transparency

  /** What the server holds for a key: section 8.8.3 of RFC 9110 makes the ETag optional. */
  datatype Resource = Resource(etag: string, body: string)

  datatype Reply = NotModified | Full(etag: string, body: string)

  /** Sections 13.1.2 and 15.4.5 of RFC 9110: 304 exactly when the validator sent still matches. */
  function Serve(r: Resource, validator: Option<string>): Reply {
    if validator.Some? && r.etag != "" && validator.value == r.etag then NotModified else Full(r.etag, r.body)
  }

  /** A GET between reading the cache, the server's answer, and handling that answer. */
  datatype Exchange =
    | Asking(key: Key, cached: Option<Entry>)
    | Answered(key: Key, cached: Option<Entry>, reply: Reply, truth: string)

  datatype World = World(cache: Cache, server: map<Key, Resource>, exchanges: map<nat, Exchange>)

  datatype Action =
    | Change(key: Key, resource: Resource)
    | Begin(id: nat, key: Key)
    | Respond(id: nat)
    | Handle(id: nat)
    | Abort(id: nat)

  /** What the caller gets: the cached data on a 304, the body otherwise. */
  function Result(x: Exchange): string
    requires x.Answered? && (x.reply.NotModified? ==> x.cached.Some?)
  {
    if x.reply.NotModified? then x.cached.value.data else x.reply.body
  }

  function Settle(c: Cache, x: Exchange): Cache
    requires x.Answered?
  {
    if x.reply.NotModified? then Touch(c, x.key) else Store(c, x.key, x.reply.etag, x.reply.body)
  }

  ghost predicate Step(w: World, a: Action, v: World) {
    match a
    case Change(key, resource) => v == w.(server := w.server[key := resource])
    case Begin(id, key) =>
      id !in w.exchanges && v == w.(exchanges := w.exchanges[id := Asking(key, Find(w.cache, key))])
    case Respond(id) =>
      && id in w.exchanges && w.exchanges[id].Asking? && w.exchanges[id].key in w.server
      && var x := w.exchanges[id];
         var r := w.server[x.key];
         v == w.(exchanges := w.exchanges[id := Answered(x.key, x.cached,
                   Serve(r, if x.cached.Some? then Some(x.cached.value.etag) else None), r.body)])
    case Handle(id) =>
      && id in w.exchanges && w.exchanges[id].Answered?
      && v == w.(cache := Settle(w.cache, w.exchanges[id]), exchanges := w.exchanges - {id})
    case Abort(id) => v == w.(exchanges := w.exchanges - {id})
  }

  ghost predicate Run(worlds: seq<World>, actions: seq<Action>) {
    && |worlds| == |actions| + 1 && worlds[0].cache == [] && worlds[0].exchanges == map[]
    && forall i :: 0 <= i < |actions| ==> Step(worlds[i], actions[i], worlds[i + 1])
  }

  /** An ETag names one body of one resource. */
  ghost predicate EtagsDetermine(w: World, body: (Key, string) -> string) {
    forall k :: k in w.server && w.server[k].etag != "" ==> w.server[k].body == body(k, w.server[k].etag)
  }

  ghost predicate Genuine(key: Key, e: Entry, body: (Key, string) -> string) {
    e.etag != "" && e.data == body(key, e.etag)
  }

  ghost predicate Sound(x: Exchange, body: (Key, string) -> string) {
    && (x.cached.Some? ==> Genuine(x.key, x.cached.value, body))
    && (x.Answered? ==>
          && (x.reply.NotModified? ==> x.cached.Some? && x.cached.value.data == x.truth)
          && (x.reply.Full? ==>
                x.reply.body == x.truth && (x.reply.etag != "" ==> x.truth == body(x.key, x.reply.etag))))
  }

  ghost predicate Inv(w: World, body: (Key, string) -> string) {
    && KeysDistinct(w.cache) && |w.cache| <= MAX_CONDITIONAL_CACHE_ENTRIES
    && (forall p :: p in w.cache ==> Genuine(p.0, p.1, body))
    && (forall id :: id in w.exchanges ==> Sound(w.exchanges[id], body))
  }

  lemma SettleKeeps(c: Cache, x: Exchange, body: (Key, string) -> string)
    requires KeysDistinct(c) && |c| <= MAX_CONDITIONAL_CACHE_ENTRIES
    requires forall p :: p in c ==> Genuine(p.0, p.1, body)
    requires x.Answered? && Sound(x, body)
    ensures KeysDistinct(Settle(c, x)) && |Settle(c, x)| <= MAX_CONDITIONAL_CACHE_ENTRIES
    ensures forall p :: p in Settle(c, x) ==> Genuine(p.0, p.1, body)
  {
    DropKeeps(c, x.key);
    FindMember(c, x.key);
    if x.reply.Full? && x.reply.etag != "" {
      StoreIsBounded(c, x.key, x.reply.etag, x.reply.body);
    } else if x.reply.NotModified? && Find(c, x.key).Some? {
      var d := Drop(c, x.key);
      forall i | 0 <= i < |d| ensures d[i].0 != x.key { assert d[i] in d; }
    }
  }

  lemma StepKeepsInv(w: World, a: Action, v: World, body: (Key, string) -> string)
    requires Inv(w, body) && EtagsDetermine(w, body) && Step(w, a, v)
    ensures Inv(v, body)
  {
    match a
    case Begin(id, key) => FindMember(w.cache, key);
    case Respond(id) => assert Sound(w.exchanges[id], body);
    case Handle(id) => SettleKeeps(w.cache, w.exchanges[id], body);
    case _ =>
  }

  lemma {:induction false} InvInEveryRun(worlds: seq<World>, actions: seq<Action>, body: (Key, string) -> string,
                                         i: nat)
    requires Run(worlds, actions) && i < |worlds|
    requires forall j :: 0 <= j < |worlds| ==> EtagsDetermine(worlds[j], body)
    ensures Inv(worlds[i], body)
  {
    if i > 0 {
      InvInEveryRun(worlds, actions, body, i - 1);
      StepKeepsInv(worlds[i - 1], actions[i - 1], worlds[i], body);
    }
  }

  /** In every run each GET returns the body the server held when it answered - what a client with
      no cache would have received - even if its entry was replaced or evicted meanwhile. */
  lemma CacheIsTransparent(worlds: seq<World>, actions: seq<Action>, body: (Key, string) -> string, i: nat, id: nat)
    requires Run(worlds, actions) && i < |worlds|
    requires forall j :: 0 <= j < |worlds| ==> EtagsDetermine(worlds[j], body)
    requires id in worlds[i].exchanges && worlds[i].exchanges[id].Answered?
    ensures worlds[i].exchanges[id].reply.NotModified? ==> worlds[i].exchanges[id].cached.Some?
    ensures Result(worlds[i].exchanges[id]) == worlds[i].exchanges[id].truth
  {
    InvInEveryRun(worlds, actions, body, i);
    assert Sound(worlds[i].exchanges[id], body);
  }
}
