/** Editing the overlay through the control API: the pool an edit was validated as is the pool the next tick runs. */
module ConfigApi {
  import opened Common
  import opened ConfigOverlay

  datatype Reply = Saved(preview: Pool) | Done | Rejected(status: int) | Crashed

  /** What a new or changed row must pass before it is saved. */
  function Check(env: Env, candidate: Built): Reply {
    match candidate
    case Raises => Crashed
    case Unusable => Rejected(400)
    case Made(pool) => if env.usable(pool) then Saved(pool) else Rejected(400)
  }

  predicate Accepted(f: Field) { Tunable(f) || Identity(f) || f.PatEnv? }

  function Patched(env: Env, base: seq<Pool>, rows: Rows, name: string, body: Data): (Reply, Rows) {
    if exists f :: f in body && !Tunable(f) then (Rejected(400), rows)
    else if BaseNamed(base, name).None? && (name !in rows || rows[name].origin.Yaml?) then (Rejected(404), rows)
    else
      match Coerced(env, body)
      case None => (Rejected(400), rows)
      case Some(clean) =>
        var merged := if name in rows then rows[name].data + clean else clean;
        var origin := if name in rows then rows[name].origin else Yaml;
        var reply := Check(env, Candidate(env, base, name, merged, origin));
        (reply, if reply.Saved? then rows[name := Row(merged, origin, false)] else rows)
  }

  /** `existing` is what `resolve` listed a moment before. */
  function Created(env: Env, base: seq<Pool>, rows: Rows, name: string, body: Data, existing: set<string>)
    : (Reply, Rows)
  {
    if name == "" then (Rejected(400), rows)
    else if exists f :: f in body && !Accepted(f) then (Rejected(400), rows)
    else if name in existing then (Rejected(409), rows)
    else
      var reply := Check(env, Candidate(env, base, name, body - {Name}, Ui));
      (reply, if reply.Saved? then rows[name := Row(body - {Name}, Ui, false)] else rows)
  }

  /** A pool from config.yml is switched off, one made through the API is forgotten. */
  function WithoutPool(base: seq<Pool>, rows: Rows, name: string): (Reply, Rows) {
    if name in rows && rows[name].origin.Ui? then (Done, rows - {name})
    else if BaseNamed(base, name).Some? then
      (Done, rows[name := Row(if name in rows then rows[name].data else map[], Yaml, true)])
    else (Rejected(404), rows)
  }

  function ResetRow(base: seq<Pool>, rows: Rows, name: string): (Reply, Rows) {
    if BaseNamed(base, name).None? then (Rejected(404), rows) else (Done, rows - {name})
  }

  /** An edit of one pool leaves every other pool's row alone. */
  predicate OthersKept(was: Rows, now: Rows, name: string) { now - {name} == was - {name} }

  /** The row is on, keeps its origin and the fields the body does not name, and has the body's converted;
      the body names only fields an override may tune. */
  ghost predicate RowPatched(env: Env, was: Rows, now: Rows, name: string, body: Data) {
    && name in now && !now[name].disabled
    && now[name].origin == (if name in was then was[name].origin else Yaml)
    && (forall f :: f in body ==>
          Tunable(f) && f in now[name].data && Converted(env, f, body[f]) == Some(now[name].data[f]))
    && (forall f :: f !in body ==>
          && (f in now[name].data <==> name in was && f in was[name].data)
          && (f in now[name].data ==> now[name].data[f] == was[name].data[f]))
  }

  lemma MergedRow(env: Env, rows: Rows, name: string, body: Data)
    requires Coercible(env, body) && forall f :: f in body ==> Tunable(f)
    ensures var clean := Coerced(env, body).value;
            var merged := if name in rows then rows[name].data + clean else clean;
            var origin := if name in rows then rows[name].origin else Yaml;
            RowPatched(env, rows, rows[name := Row(merged, origin, false)], name, body)
  {
    var clean := Coerced(env, body).value;
    assert clean.Keys == body.Keys;
  }

  /** A patch in the terms of the row it changes. */
  lemma PatchedMeans(env: Env, base: seq<Pool>, rows: Rows, name: string, body: Data)
    ensures var (reply, now) := Patched(env, base, rows, name, body);
            && OthersKept(rows, now, name) && (!reply.Saved? ==> now == rows)
            && ((exists f :: f in body && (f in {Name, Owner, Repo, Scope, PatEnv} || f.Other?)) ==>
                  reply == Rejected(400))
            && (reply.Saved? ==> RowPatched(env, rows, now, name, body))
  {
    if f :| f in body && (f in {Name, Owner, Repo, Scope, PatEnv} || f.Other?) {
      FieldKinds(f);
      assert !Tunable(f);
    } else if Coercible(env, body) && forall f :: f in body ==> Tunable(f) {
      MergedRow(env, rows, name, body);
    }
  }

  /** The control routes over one store. */
  class ControlApi {
    const env: Env
    const base: seq<Pool>
    var rows: Rows

    method PatchPool(name: string, body: Data) returns (reply: Reply)
      modifies this
      ensures (reply, rows) == Patched(env, base, old(rows), name, body)
      ensures OthersKept(old(rows), rows, name) && (!reply.Saved? ==> rows == old(rows))
      ensures (exists f :: f in body && (f in {Name, Owner, Repo, Scope, PatEnv} || f.Other?)) ==>
                reply == Rejected(400)
      ensures reply == Rejected(400) || reply == Rejected(404) || reply.Crashed? || reply.Saved?
      ensures reply.Saved? ==> RowPatched(env, old(rows), rows, name, body)
    {
      ghost var expected := Patched(env, base, rows, name, body);
      PatchedMeans(env, base, rows, name, body);
      if exists f :: f in body && !Tunable(f) {
        return Rejected(400);
      }
      var b := BaseNamed(base, name);
      if b.None? && (name !in rows || rows[name].origin.Yaml?) {
        return Rejected(404);
      }
      var merged, origin := map[], Yaml;
      if name in rows {
        merged, origin := rows[name].data, rows[name].origin;
      }
      var clean := Coerced(env, body);
      if clean.None? {
        return Rejected(400);
      }
      assert map[] + clean.value == clean.value;
      merged := merged + clean.value;
      reply := Check(env, Candidate(env, base, name, merged, origin));
      if reply.Saved? {
        rows := rows[name := Row(merged, origin, false)];
      }
      assert (reply, rows) == expected;
    }

    method CreatePool(name: string, body: Data, order: seq<string>) returns (reply: Reply)
      requires Lists(order, rows)
      modifies this
      ensures Resolved(env, base, old(rows), order).None? ==> rows == old(rows) && !reply.Saved?
      ensures OthersKept(old(rows), rows, name) && (!reply.Saved? ==> rows == old(rows))
      ensures reply.Saved? ==> name in rows && rows[name] == Row(body - {Name}, Ui, false)
      ensures reply.Saved? ==> reply.preview.name == name && env.usable(reply.preview)
      ensures reply == Rejected(400) || reply == Rejected(409) || reply.Crashed? || reply.Saved?
      ensures name == "" || (exists f :: f in body && f.Other?) ==> reply == Rejected(400)
      ensures name != "" && (forall f :: f in body ==> !f.Other?) && Resolved(env, base, old(rows), order).Some?
              && name in Names(Resolved(env, base, old(rows), order).value) ==>
                reply == Rejected(409)
      ensures Resolved(env, base, old(rows), order).Some? ==>
                (reply, rows) == Created(env, base, old(rows), name, body,
                                         Names(Resolved(env, base, old(rows), order).value))
    {
      if name == "" || exists f :: f in body && !Accepted(f) {
        return Rejected(400);
      }
      var pools := Resolve(env, base, rows, order);
      if pools.None? {
        return Crashed;
      }
      if exists p :: p in pools.value && p.name == name {
        return Rejected(409);
      }
      reply := Check(env, Candidate(env, base, name, body - {Name}, Ui));
      if reply.Saved? {
        rows := rows[name := Row(body - {Name}, Ui, false)];
      }
    }

    method RemovePool(name: string) returns (reply: Reply)
      modifies this
      ensures (reply, rows) == WithoutPool(base, old(rows), name)
      ensures OthersKept(old(rows), rows, name)
      ensures reply.Done? <==> name in Names(base) || (name in old(rows) && old(rows)[name].origin.Ui?)
      ensures reply.Done? || reply == Rejected(404)
      ensures name in rows ==> rows[name].origin.Yaml?
      ensures name in old(rows) && name in rows ==> rows[name].data == old(rows)[name].data
    {
      BaseNamedMember(base, name);
      if name in rows && rows[name].origin.Ui? {
        rows := rows - {name};
        return Done;
      }
      if BaseNamed(base, name).Some? {
        var data := if name in rows then rows[name].data else map[];
        rows := rows[name := Row(data, Yaml, true)];
        return Done;
      }
      reply := Rejected(404);
    }

    method ResetPool(name: string) returns (reply: Reply)
      modifies this
      ensures (reply, rows) == ResetRow(base, old(rows), name)
      ensures OthersKept(old(rows), rows, name)
      ensures reply.Done? <==> name in Names(base)
      ensures reply.Done? || reply == Rejected(404)
      ensures reply.Done? ==> name !in rows
    {
      BaseNamedMember(base, name);
      if BaseNamed(base, name).None? {
        return Rejected(404);
      }
      rows := rows - {name};
      reply := Done;
    }
  }

  // ------------------------------------------------------------ any sequence of edits

  datatype Edit =
    | Patch(name: string, body: Data)
    | Create(name: string, body: Data, existing: set<string>)
    | Remove(name: string)
    | Reset(name: string)

  function Apply(env: Env, base: seq<Pool>, rows: Rows, e: Edit): (Reply, Rows) {
    match e
    case Patch(name, body) => Patched(env, base, rows, name, body)
    case Create(name, body, existing) => Created(env, base, rows, name, body, existing)
    case Remove(name) => WithoutPool(base, rows, name)
    case Reset(name) => ResetRow(base, rows, name)
  }

  function After(env: Env, base: seq<Pool>, edits: seq<Edit>): Rows {
    if edits == [] then map[] else Apply(env, base, After(env, base, edits[..|edits| - 1]), edits[|edits| - 1]).1
  }

  /** The row is one the API could have written. */
  ghost predicate Storable(env: Env, row: Row) { Coercible(env, row.data) && forall f :: f in row.data ==> Accepted(f) }

  ghost predicate AllStorable(env: Env, rows: Rows) { forall n :: n in rows ==> Storable(env, rows[n]) }

  lemma CoercibleApart(env: Env, data: Data)
    requires Coerced(env, data - {PatEnv}).Some?
    ensures Coercible(env, data)
  {
    var kept := data - {PatEnv};
    forall f | f in data ensures Converted(env, f, data[f]).Some? {
      if f != PatEnv { assert f in kept && kept[f] == data[f]; }
    }
  }

  lemma CandidateCoercible(env: Env, base: seq<Pool>, name: string, data: Data, origin: Origin)
    requires Candidate(env, base, name, data, origin).Made?
    ensures Coercible(env, data)
  {
    if origin.Ui? { CoercibleApart(env, data); }
  }

  lemma EditKeepsStorable(env: Env, base: seq<Pool>, rows: Rows, e: Edit)
    requires AllStorable(env, rows)
    ensures AllStorable(env, Apply(env, base, rows, e).1)
  {
    var (reply, next) := Apply(env, base, rows, e);
    if reply.Saved? { CandidateCoercible(env, base, e.name, next[e.name].data, next[e.name].origin); }
  }

  lemma {:induction false} EditsKeepStorable(env: Env, base: seq<Pool>, edits: seq<Edit>)
    ensures AllStorable(env, After(env, base, edits))
  {
    if edits != [] {
      EditsKeepStorable(env, base, edits[..|edits| - 1]);
      EditKeepsStorable(env, base, After(env, base, edits[..|edits| - 1]), edits[|edits| - 1]);
    }
  }

  /** Whatever edits are made, `resolve` does not raise. */
  lemma EditsNeverBreakResolve(env: Env, base: seq<Pool>, edits: seq<Edit>, order: seq<string>)
    ensures Resolved(env, base, After(env, base, edits), order).Some?
  {
    EditsKeepStorable(env, base, edits);
    CoercibleRowsResolve(env, base, After(env, base, edits), order);
  }

  // ------------------------------------------------------------ what was previewed and what runs

  /** What a pool made from this data alone has in a field. */
  function Asked(env: Env, data: Data, f: Field): Option<Value> {
    if f in data && f != PatEnv && f != Name then Converted(env, f, data[f])
    else if f in env.defaults then Some(env.defaults[f])
    else None
  }

  function Setting(settings: Data, f: Field): Option<Value> { if f in settings then Some(settings[f]) else None }

  /** A pool of config.yml has the token this data names and, in every field the data does not tune,
      the value the data or the dataclass default gives. */
  ghost predicate AlreadyAsAsked(env: Env, b: Pool, data: Data) {
    && TokenFor(env, data) == b.pat
    && forall f :: !(f in data && Tunable(f)) ==> Asked(env, data, f) == Setting(b.settings, f)
  }

  lemma CoercedAt(env: Env, data: Data, f: Field)
    requires Coercible(env, data)
    ensures Setting(Coerced(env, data).value, f) == if f in data then Converted(env, f, data[f]) else None
  {
  }

  lemma MergedSetting(under: Data, over: Data, f: Field)
    ensures Setting(under + over, f) == if f in over then Setting(over, f) else Setting(under, f)
  {
  }

  /** Field by field, what a row made from this data is checked as ... */
  lemma MadeSettings(env: Env, name: string, pat: string, data: Data, f: Field)
    requires Coercible(env, data)
    requires Constructed(env, name, pat, Coerced(env, data - {PatEnv}).value - {Name}).Made?
    ensures Setting(Constructed(env, name, pat, Coerced(env, data - {PatEnv}).value - {Name}).pool.settings, f) ==
              Asked(env, data, f)
  {
    var fields := Coerced(env, data - {PatEnv}).value;
    CoercedAt(env, data - {PatEnv}, f);
    MergedSetting(env.defaults, fields - {Name}, f);
    assert Setting(fields - {Name}, f) == if f == Name then None else Setting(fields, f);
  }

  /** ... and what it makes of a pool of config.yml. */
  lemma RunsSettings(env: Env, b: Pool, data: Data, f: Field)
    requires Coercible(env, data)
    ensures Overridden(env, b, data).Made?
    ensures Setting(Overridden(env, b, data).pool.settings, f)
         == if f in data && Tunable(f) then Asked(env, data, f) else Setting(b.settings, f)
  {
    var clean := Coerced(env, data).value;
    CoercedAt(env, data, f);
    MergedSetting(b.settings, TunablePart(clean), f);
    TunableSetting(clean, f);
  }

  lemma TunableSetting(data: Data, f: Field)
    ensures Setting(TunablePart(data), f) == if Tunable(f) then Setting(data, f) else None
    ensures f in TunablePart(data) <==> f in data && Tunable(f)
  {
  }

  lemma SameSettings(a: Data, b: Data)
    requires forall f :: Setting(a, f) == Setting(b, f)
    ensures a == b
  {
    forall f ensures f in a <==> f in b { assert Setting(a, f) == Setting(b, f); }
    forall f | f in a ensures a[f] == b[f] { assert Setting(a, f) == Setting(b, f); }
  }

  /** An API row over a pool of config.yml runs as it was checked if and only if that pool already was
      as asked. */
  lemma OverBaseRunsIff(env: Env, base: seq<Pool>, rows: Rows, b: Pool)
    requires DistinctNames(base) && b in base && b.name in rows && Storable(env, rows[b.name])
    requires rows[b.name].origin.Ui? && !rows[b.name].disabled
    requires Candidate(env, base, b.name, rows[b.name].data, Ui).Made?
    ensures Effect(env, base, rows, b.name) == Candidate(env, base, b.name, rows[b.name].data, Ui)
       <==> AlreadyAsAsked(env, b, rows[b.name].data)
  {
    var data := rows[b.name].data;
    BaseNamedIs(base, b);
    var made, runs := Candidate(env, base, b.name, data, Ui).pool, Overridden(env, b, data).pool;
    forall f
      ensures Setting(made.settings, f) == Asked(env, data, f)
      ensures Setting(runs.settings, f) ==
                if f in data && Tunable(f) then Asked(env, data, f) else Setting(b.settings, f)
    {
      MadeSettings(env, b.name, TokenFor(env, data), data, f);
      RunsSettings(env, b, data, f);
    }
    if AlreadyAsAsked(env, b, data) { SameSettings(made.settings, runs.settings); }
  }

  /** For a row of the right origin the candidate is what the overlay then means. */
  lemma CandidateIsEffect(env: Env, base: seq<Pool>, rows: Rows, name: string)
    requires name in rows && Storable(env, rows[name]) && !rows[name].disabled
    requires rows[name].origin.Ui? <==> name !in Names(base)
    requires var c := Candidate(env, base, name, rows[name].data, rows[name].origin); c.Made? && env.usable(c.pool)
    ensures Effect(env, base, rows, name) == Candidate(env, base, name, rows[name].data, rows[name].origin)
  {
    var data := rows[name].data;
    BaseNamedMember(base, name);
    if rows[name].origin.Ui? {
      assert data - {PatEnv} == Kept(data);
    } else {
      assert BaseNamed(base, name).value.name == name;
    }
  }

  /** When the pool an edit was checked as is the pool that runs. */
  ghost predicate PreviewHolds(env: Env, base: seq<Pool>, rows: Rows, name: string)
    requires name in rows
  {
    match BaseNamed(base, name)
    case None => true
    case Some(b) => rows[name].origin.Yaml? || AlreadyAsAsked(env, b, rows[name].data)
  }

  lemma SavedRowRunsIff(env: Env, base: seq<Pool>, rows: Rows, e: Edit)
    requires DistinctNames(base) && AllStorable(env, rows) && Apply(env, base, rows, e).0.Saved?
    ensures var (reply, next) := Apply(env, base, rows, e);
            e.name in next && (Effect(env, base, next, e.name) == Made(reply.preview) <==>
                               PreviewHolds(env, base, next, e.name))
  {
    var (reply, next) := Apply(env, base, rows, e);
    EditKeepsStorable(env, base, rows, e);
    BaseNamedMember(base, e.name);
    if e.name in Names(base) && next[e.name].origin.Ui? {
      OverBaseRunsIff(env, base, next, BaseNamed(base, e.name).value);
    } else {
      CandidateIsEffect(env, base, next, e.name);
    }
  }

  lemma SavedRowResolvesIff(env: Env, base: seq<Pool>, rows: Rows, e: Edit, reply: Reply, next: Rows,
                            order: seq<string>)
    requires DistinctNames(base) && AllStorable(env, rows) && AllStorable(env, next) && Lists(order, next)
    requires (reply, next) == Apply(env, base, rows, e) && reply.Saved? && reply.preview.name == e.name
    ensures e.name in next && Resolved(env, base, next, order).Some?
    ensures var pools := Resolved(env, base, next, order).value;
            && (reply.preview in pools <==> PreviewHolds(env, base, next, e.name))
            && (reply.preview in pools ==> forall p :: p in pools && p.name == e.name ==> p == reply.preview)
  {
    CoercibleRowsResolve(env, base, next, order);
    SavedRowRunsIff(env, base, rows, e);
    ResolveIsPerName(env, base, next, order);
    NamedPoolResolves(env, base, next, Resolved(env, base, next, order).value, e.name, reply.preview);
  }

  lemma PreviewIsNamed(env: Env, base: seq<Pool>, rows: Rows, e: Edit)
    requires Apply(env, base, rows, e).0.Saved?
    ensures Apply(env, base, rows, e).0.preview.name == e.name
  {
    BaseNamedMember(base, e.name);
  }

  /** After any edits, an edit that is accepted with a preview makes the next `resolve` return exactly
      that pool under its name, unless its row was created over a pool of config.yml that is not
      already as asked - and then it does not. */
  lemma PreviewIsWhatResolvesIff(env: Env, base: seq<Pool>, edits: seq<Edit>, e: Edit, order: seq<string>)
    requires DistinctNames(base) && Apply(env, base, After(env, base, edits), e).0.Saved?
    requires Lists(order, Apply(env, base, After(env, base, edits), e).1)
    ensures var (reply, rows) := Apply(env, base, After(env, base, edits), e);
            var pools := Resolved(env, base, rows, order);
            && e.name in rows && pools.Some?
            && (reply.preview in pools.value <==> PreviewHolds(env, base, rows, e.name))
            && (reply.preview in pools.value ==>
                  forall p :: p in pools.value && p.name == e.name ==> p == reply.preview)
  {
    var rows := After(env, base, edits);
    var (reply, next) := Apply(env, base, rows, e);
    EditsKeepStorable(env, base, edits);
    EditKeepsStorable(env, base, rows, e);
    PreviewIsNamed(env, base, rows, e);
    SavedRowResolvesIff(env, base, rows, e, reply, next, order);
  }

  lemma NamedPoolResolves(env: Env, base: seq<Pool>, rows: Rows, pools: seq<Pool>, name: string, pool: Pool)
    requires Means(pools, env, base, rows, Names(base) + rows.Keys) && name in rows && pool.name == name
    ensures pool in pools <==> Effect(env, base, rows, name) == Made(pool)
    ensures pool in pools ==> forall p :: p in pools && p.name == name ==> p == pool
  {
    if Effect(env, base, rows, name) == Made(pool) {
      assert name in Names(pools);
      var p :| p in pools && p.name == name;
      assert Effect(env, base, rows, p.name) == Made(p);
    }
    forall p | p in pools && p.name == name ensures Effect(env, base, rows, name) == Made(p) { }
  }

  /** `create_pool` accepts a name from config.yml exactly when its one pool has been switched off. */
  lemma CreateReachesBaseIffDisabled(env: Env, base: seq<Pool>, rows: Rows, order: seq<string>, name: string)
    requires Lists(order, rows) && Resolved(env, base, rows, order).Some? && name in Names(base)
    ensures name !in Names(Resolved(env, base, rows, order).value)
       <==> name in rows && rows[name].disabled && |Named(base, name)| == 1
  {
    ResolvedNamed(env, base, rows, order, name);
    NamedMember(Resolved(env, base, rows, order).value, name);
    NamedMember(base, name);
    UiPartsExtend(env, BaseParts(env, base, rows), order, rows - Names(base));
    FirstCopyConverts(env, base, rows, name);
    RemainingNone(env, Named(base, name), rows, name);
  }

  /** Then the preview is what runs if and only if that pool already was as the body asks. */
  lemma CreateOverBaseRunsIff(env: Env, base: seq<Pool>, rows: Rows, b: Pool, body: Data, existing: set<string>)
    requires DistinctNames(base) && b in base && AllStorable(env, rows)
    requires Created(env, base, rows, b.name, body, existing).0.Saved?
    ensures var (reply, next) := Created(env, base, rows, b.name, body, existing);
            Effect(env, base, next, b.name) == Made(reply.preview) <==> AlreadyAsAsked(env, b, body - {Name})
  {
    BaseNamedIs(base, b);
    SavedRowRunsIff(env, base, rows, Create(b.name, body, existing));
  }

  /** A process whose conversions accept matching values, and one pool in config.yml. */
  function SampleEnv(): Env {
    Env((v: Value) => if v.Int? then Some(v.i) else None, (v: Value) => if v.Float? then Some(v.x) else None,
        (v: Value) => if v.Text? then v.s else "", map["GITHUB_PAT" := "token"], map[MaxRunners := Int(3)],
        (p: Pool) => true)
  }

  function SamplePool(): Pool { Pool("ci", "token", map[Owner := Text("acme"), MaxRunners := Int(5)]) }

  function SampleBody(): Data { map[Owner := Text("acme")] }

  lemma SampleBodyReads()
    ensures SampleBody() - {Name} == SampleBody() && SampleBody() - {PatEnv} == SampleBody()
    ensures Coerced(SampleEnv(), SampleBody()) == Some(SampleBody())
    ensures TokenFor(SampleEnv(), SampleBody()) == "token" && TunablePart(SampleBody()) == map[]
  {
    assert Converted(SampleEnv(), Owner, Text("acme")) == Some(Text("acme"));
    assert Coercible(SampleEnv(), SampleBody()) && Coerced(SampleEnv(), SampleBody()).value == SampleBody();
  }

  lemma SamplePreview(rows: Rows)
    ensures Created(SampleEnv(), [SamplePool()], rows, "ci", SampleBody(), {})
         == (Saved(Pool("ci", "token", map[MaxRunners := Int(3), Owner := Text("acme")])),
             rows["ci" := Row(SampleBody(), Ui, false)])
  {
    SampleBodyReads();
    assert SampleEnv().defaults + SampleBody() == map[MaxRunners := Int(3), Owner := Text("acme")];
  }

  lemma SampleRuns(rows: Rows)
    requires "ci" in rows && rows["ci"] == Row(SampleBody(), Ui, false)
    ensures Effect(SampleEnv(), [SamplePool()], rows, "ci") == Made(SamplePool())
  {
    var b := SamplePool();
    assert b in [b] && DistinctNames([b]);
    BaseNamedIs([b], b);
    SampleBodyReads();
    assert Overridden(SampleEnv(), b, SampleBody()) == Made(b.(settings := b.settings + map[]));
  }

  /** Switch a pool off and create it again with the same owner and token but no `max_runners`: the
      preview has the default of 3, the pool that runs has the 5 of config.yml. */
  lemma CreateOverBaseMisleads()
    ensures WithoutPool([SamplePool()], map[], "ci") == (Done, map["ci" := Row(map[], Yaml, true)])
    ensures var (reply, next) := Created(SampleEnv(), [SamplePool()], map["ci" := Row(map[], Yaml, true)], "ci",
                                         SampleBody(), {});
            && reply == Saved(Pool("ci", "token", map[MaxRunners := Int(3), Owner := Text("acme")]))
            && Effect(SampleEnv(), [SamplePool()], next, "ci") == Made(SamplePool())
  {
    var rows := map["ci" := Row(map[], Yaml, true)];
    BaseNamedMember([SamplePool()], "ci");
    SamplePreview(rows);
    SampleRuns(rows["ci" := Row(SampleBody(), Ui, false)]);
  }

  // ------------------------------------------------------------ removing and resetting

  /** An edit changes what `resolve` returns under its own name and no other. */
  lemma EditTouchesOneName(env: Env, base: seq<Pool>, rows: Rows, e: Edit, order: seq<string>, later: seq<string>,
                           other: string)
    requires var next := Apply(env, base, rows, e).1;
             && Lists(order, rows) && Resolved(env, base, rows, order).Some?
             && Lists(later, next) && Resolved(env, base, next, later).Some?
    requires other != e.name
    ensures Named(Resolved(env, base, Apply(env, base, rows, e).1, later).value, other)
         == Named(Resolved(env, base, rows, order).value, other)
  {
    var next := Apply(env, base, rows, e).1;
    ResolvedNamed(env, base, rows, order, other);
    ResolvedNamed(env, base, next, later, other);
    OtherRowsKept(env, base, rows, e, other);
    MeaningByRow(env, base, rows, next, other);
  }

  lemma OtherRowsKept(env: Env, base: seq<Pool>, rows: Rows, e: Edit, other: string)
    requires other != e.name
    ensures var next := Apply(env, base, rows, e).1;
            (other in next <==> other in rows) && (other in rows ==> next[other] == rows[other])
  {
  }

  /** What `resolve` returns under the name of a pool that was removed: nothing, unless its row was
      created over a name from config.yml or config.yml has the name more than once. */
  lemma RemovedPoolStopsIff(env: Env, base: seq<Pool>, rows: Rows, name: string, order: seq<string>)
    requires WithoutPool(base, rows, name).0.Done? && Lists(order, WithoutPool(base, rows, name).1)
    requires Resolved(env, base, WithoutPool(base, rows, name).1, order).Some?
    ensures name in Names(Resolved(env, base, WithoutPool(base, rows, name).1, order).value)
       <==> (name in Names(base) && name in rows && rows[name].origin.Ui?) || |Named(base, name)| >= 2
  {
    var next := WithoutPool(base, rows, name).1;
    ResolvedNamed(env, base, next, order, name);
    NamedMember(Resolved(env, base, next, order).value, name);
    NamedMember(base, name);
    NamedAre(base, name);
    BaseNamedMember(base, name);
  }

  /** config.yml may name a pool twice, with only a warning: removing it stops the first copy. */
  lemma RemovedCopyRuns(env: Env, b: Pool)
    ensures WithoutPool([b, b], map[], b.name) == (Done, map[b.name := Row(map[], Yaml, true)])
    ensures Resolved(env, [b, b], map[b.name := Row(map[], Yaml, true)], [b.name]) == Some([b])
  {
    var base, rows := [b, b], map[b.name := Row(map[], Yaml, true)];
    BaseNamedMember(base, b.name);
    assert b in base && b.name in Names(base);
    assert base == [] + [b] + [b];
    BasePartsStep(env, [], b, rows);
    BasePartsStep(env, [] + [b], b, rows);
    UiPartsStep(env, Some([b]), [], b.name, rows - Names(base));
    assert [] + [b.name] == [b.name];
  }

  /** Remove a pool of config.yml, create it, remove it: each reply says so, and the pool runs. */
  lemma RemovedPoolComesBack(env: Env, base: seq<Pool>, rows: Rows, b: Pool, body: Data, existing: set<string>)
    requires DistinctNames(base) && b in base && (b.name in rows ==> rows[b.name].origin.Yaml?)
    requires Created(env, base, WithoutPool(base, rows, b.name).1, b.name, body, existing).0.Saved?
    ensures var off := WithoutPool(base, rows, b.name);
            var on := Created(env, base, off.1, b.name, body, existing);
            var off' := WithoutPool(base, on.1, b.name);
            off.0 == Done == off'.0 && Effect(env, base, off'.1, b.name) == Made(b)
  {
    BaseNamedIs(base, b);
  }

  /** Resetting a pool brings its definition in config.yml back - all of them, if it has several - whatever
      was edited, removed or created over it. */
  lemma ResetRestoresBase(env: Env, base: seq<Pool>, rows: Rows, name: string, order: seq<string>)
    requires name in Names(base) && Lists(order, ResetRow(base, rows, name).1)
    requires Resolved(env, base, ResetRow(base, rows, name).1, order).Some?
    ensures ResetRow(base, rows, name).0.Done?
    ensures Named(Resolved(env, base, ResetRow(base, rows, name).1, order).value, name) == Named(base, name)
  {
    BaseNamedMember(base, name);
    ResolvedNamed(env, base, ResetRow(base, rows, name).1, order, name);
    NamedMember(base, name);
    NamedAre(base, name);
  }

  // ------------------------------------------------------------ edits side by side

  /** A request under `serialized`: it has the lock, reads the rows, and writes them back. */
  datatype Phase = Waiting | Locked | HasRead(rows: Rows) | Written

  datatype Thread = Thread(edit: Edit, phase: Phase)

  datatype World = World(rows: Rows, holder: Option<nat>, threads: map<nat, Thread>, done: seq<Edit>)

  datatype Action = Arrive(id: nat, edit: Edit) | Acquire(id: nat) | Read(id: nat) | Write(id: nat) | Release(id: nat)

  /** The rows a caller read make its edit fail, so there is nothing to write. */
  predicate Refused(env: Env, base: seq<Pool>, t: Thread)
    requires t.phase.HasRead?
  {
    Apply(env, base, t.phase.rows, t.edit).0.Rejected? || Apply(env, base, t.phase.rows, t.edit).0.Crashed?
  }

  ghost predicate Step(env: Env, base: seq<Pool>, w: World, a: Action, v: World) {
    match a
    case Arrive(id, edit) => id !in w.threads && v == w.(threads := w.threads[id := Thread(edit, Waiting)])
    case Acquire(id) =>
      && id in w.threads && w.threads[id].phase.Waiting? && w.holder.None?
      && v == w.(holder := Some(id), threads := w.threads[id := w.threads[id].(phase := Locked)])
    case Read(id) =>
      && id in w.threads && w.threads[id].phase.Locked?
      && v == w.(threads := w.threads[id := w.threads[id].(phase := HasRead(w.rows))])
    case Write(id) =>
      && id in w.threads && w.threads[id].phase.HasRead? && !Refused(env, base, w.threads[id])
      && var t := w.threads[id];
         v == w.(rows := Apply(env, base, t.phase.rows, t.edit).1, done := w.done + [t.edit],
                 threads := w.threads[id := t.(phase := Written)])
    case Release(id) =>
      && id in w.threads && w.holder == Some(id)
      && (w.threads[id].phase.Written? || (w.threads[id].phase.HasRead? && Refused(env, base, w.threads[id])))
      && v == w.(holder := None, threads := w.threads - {id})
  }

  ghost predicate Run(env: Env, base: seq<Pool>, worlds: seq<World>, actions: seq<Action>) {
    && |worlds| == |actions| + 1 && worlds[0] == World(map[], None, map[], [])
    && forall i :: 0 <= i < |actions| ==> Step(env, base, worlds[i], actions[i], worlds[i + 1])
  }

  /** Whoever is past the lock holds it. */
  ghost predicate HolderAlone(w: World) {
    forall id :: id in w.threads && !w.threads[id].phase.Waiting? ==> w.holder == Some(id)
  }

  /** What the holder has read is still so, and what it has written was the last edit made. */
  ghost predicate HolderCurrent(w: World) {
    forall id :: id in w.threads ==>
      && (w.threads[id].phase.HasRead? ==> w.threads[id].phase.rows == w.rows)
      && (w.threads[id].phase.Written? ==> w.done != [] && w.done[|w.done| - 1] == w.threads[id].edit)
  }

  lemma StepKeepsHolder(env: Env, base: seq<Pool>, w: World, a: Action, v: World)
    requires HolderAlone(w) && Step(env, base, w, a, v)
    ensures HolderAlone(v)
  {
  }

  lemma StepKeepsCurrent(env: Env, base: seq<Pool>, w: World, a: Action, v: World, id: nat)
    requires HolderAlone(w) && HolderCurrent(w) && Step(env, base, w, a, v) && id in v.threads
    ensures v.threads[id].phase.HasRead? ==> v.threads[id].phase.rows == v.rows
    ensures v.threads[id].phase.Written? ==> v.done != [] && v.done[|v.done| - 1] == v.threads[id].edit
  {
    if a.Write? { assert id != a.id ==> v.threads[id].phase.Waiting?; }
  }

  lemma StepMakesEdits(env: Env, base: seq<Pool>, w: World, a: Action, v: World)
    requires HolderCurrent(w) && w.rows == After(env, base, w.done) && Step(env, base, w, a, v)
    ensures v.rows == After(env, base, v.done)
  {
    if a.Write? { assert v.done[..|v.done| - 1] == w.done; }
  }

  /** Every edit that was written had been accepted by the rows before it. */
  ghost predicate OnlyAccepted(env: Env, base: seq<Pool>, done: seq<Edit>) {
    forall k :: 0 <= k < |done| ==> AcceptedAt(env, base, done, k)
  }

  ghost predicate AcceptedAt(env: Env, base: seq<Pool>, done: seq<Edit>, k: nat)
    requires k < |done|
  {
    var reply := Apply(env, base, After(env, base, done[..k]), done[k]).0;
    reply.Saved? || reply.Done?
  }

  lemma StepKeepsAccepted(env: Env, base: seq<Pool>, w: World, a: Action, v: World)
    requires HolderCurrent(w) && w.rows == After(env, base, w.done) && OnlyAccepted(env, base, w.done)
    requires Step(env, base, w, a, v)
    ensures OnlyAccepted(env, base, v.done)
  {
    if a.Write? {
      forall k | 0 <= k < |v.done| ensures AcceptedAt(env, base, v.done, k) {
        if k < |w.done| {
          assert AcceptedAt(env, base, w.done, k) && v.done[..k] == w.done[..k];
        } else {
          assert v.done[..k] == w.done;
        }
      }
    }
  }

  /** However edits overlap, the rows are those of making the accepted ones one after another in the
      order they were written: no edit is lost. */
  lemma {:induction false} NoEditIsLost(env: Env, base: seq<Pool>, worlds: seq<World>, actions: seq<Action>, i: nat)
    requires Run(env, base, worlds, actions) && i < |worlds|
    ensures worlds[i].rows == After(env, base, worlds[i].done) && HolderAlone(worlds[i]) && HolderCurrent(worlds[i])
    ensures OnlyAccepted(env, base, worlds[i].done)
  {
    if i > 0 {
      var w, a, v := worlds[i - 1], actions[i - 1], worlds[i];
      NoEditIsLost(env, base, worlds, actions, i - 1);
      StepKeepsHolder(env, base, w, a, v);
      forall id | id in v.threads
        ensures v.threads[id].phase.HasRead? ==> v.threads[id].phase.rows == v.rows
        ensures v.threads[id].phase.Written? ==> v.done != [] && v.done[|v.done| - 1] == v.threads[id].edit
      {
        StepKeepsCurrent(env, base, w, a, v, id);
      }
      StepMakesEdits(env, base, w, a, v);
      StepKeepsAccepted(env, base, w, a, v);
    }
  }

  /** Whoever holds the lock can go on, and leaves it free after a read and, unless it is refused, a write. */
  lemma HolderCanFinish(env: Env, base: seq<Pool>, w: World, id: nat) returns (left: World)
    requires id in w.threads && w.holder == Some(id) && w.threads[id].phase.Locked?
    ensures var edit := w.threads[id].edit;
            var (reply, rows) := Apply(env, base, w.rows, edit);
            var read := w.(threads := w.threads[id := Thread(edit, HasRead(w.rows))]);
            && Step(env, base, w, Read(id), read)
            && left.holder.None? && id !in left.threads
            && if reply.Saved? || reply.Done?
               then var written := w.(rows := rows, done := w.done + [edit],
                                      threads := w.threads[id := Thread(edit, Written)]);
                    Step(env, base, read, Write(id), written) && Step(env, base, written, Release(id), left)
               else Step(env, base, read, Release(id), left) && left.rows == w.rows && left.done == w.done
  {
    var edit := w.threads[id].edit;
    var (reply, rows) := Apply(env, base, w.rows, edit);
    var read := w.(threads := w.threads[id := Thread(edit, HasRead(w.rows))]);
    if reply.Saved? || reply.Done? {
      var written := w.(rows := rows, done := w.done + [edit], threads := w.threads[id := Thread(edit, Written)]);
      assert written.threads == read.threads[id := Thread(edit, Written)];
      left := written.(holder := None, threads := written.threads - {id});
    } else {
      left := read.(holder := None, threads := read.threads - {id});
    }
  }

  /** A caller leaves with its edit just made, or refused by the rows as they are. */
  lemma EveryEditIsSettled(env: Env, base: seq<Pool>, worlds: seq<World>, actions: seq<Action>, i: nat)
    requires Run(env, base, worlds, actions) && i < |actions| && actions[i].Release?
    ensures actions[i].id in worlds[i].threads
    ensures var w, edit := worlds[i], worlds[i].threads[actions[i].id].edit;
            || (w.done != [] && w.done[|w.done| - 1] == edit
                && w.rows == Apply(env, base, After(env, base, w.done[..|w.done| - 1]), edit).1
                && !Apply(env, base, After(env, base, w.done[..|w.done| - 1]), edit).0.Rejected?
                && !Apply(env, base, After(env, base, w.done[..|w.done| - 1]), edit).0.Crashed?)
            || Apply(env, base, w.rows, edit).0.Rejected? || Apply(env, base, w.rows, edit).0.Crashed?
  {
    NoEditIsLost(env, base, worlds, actions, i);
    assert Step(env, base, worlds[i], actions[i], worlds[i + 1]);
    var done := worlds[i].done;
    if done != [] { assert AcceptedAt(env, base, done, |done| - 1); }
  }
}
