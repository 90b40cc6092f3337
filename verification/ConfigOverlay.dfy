/** The database overlay over config.yml: what a tick resolves, and what the API validated before saving. */
module ConfigOverlay {
  import opened Common

  /** The keys of an override row. */
  datatype Field =
    | MaxRunners | MinIdle | RunnerLabels | RunnerImage | MemoryLimit | CpuLimit | WorkTmpfsSize | RepoDiscoveryTtl
    | GithubPollInterval | QueuedMinAge | StuckTimeout | RepoCheckWorkers | RunnerOperationWorkers | NetworkMode
    | ExcludeRepos
    | Name | Owner | Repo | Scope
    | PatEnv
    | Other(name: string)

  predicate Identity(f: Field) { f.Name? || f.Owner? || f.Repo? || f.Scope? }

  predicate Tunable(f: Field) { !Identity(f) && !f.PatEnv? && !f.Other? }

  predicate NumericInt(f: Field) {
    || f.MaxRunners? || f.MinIdle? || f.RepoDiscoveryTtl? || f.GithubPollInterval?
    || f.QueuedMinAge? || f.StuckTimeout? || f.RepoCheckWorkers? || f.RunnerOperationWorkers?
  }

  datatype Value = Int(i: int) | Float(x: real) | Text(s: string)

  type Data = map<Field, Value>

  /** A pool's name and token, and its other settings by field. */
  datatype Pool = Pool(name: string, pat: string, settings: Data)

  datatype Origin = Yaml | Ui

  datatype Row = Row(data: Data, origin: Origin, disabled: bool)

  type Rows = map<string, Row>

  /** Python's conversions, the process environment, the dataclass defaults and `validation_errors`. */
  datatype Env = Env(
    toInt: Value -> Option<int>,
    toFloat: Value -> Option<real>,
    toText: Value -> string,
    environ: map<string, string>,
    defaults: Data,
    usable: Pool -> bool)

  /** The fields an override may tune are these, and the identity fields of an API pool are the other four. */
  lemma FieldKinds(f: Field)
    ensures Tunable(f) <==>
              f in {MaxRunners, MinIdle, RunnerLabels, RunnerImage, MemoryLimit, CpuLimit, WorkTmpfsSize,
                    RepoDiscoveryTtl, GithubPollInterval, QueuedMinAge, StuckTimeout, RepoCheckWorkers,
                    RunnerOperationWorkers, NetworkMode, ExcludeRepos}
    ensures Identity(f) <==> f in {Name, Owner, Repo, Scope}
  {
  }

  // ------------------------------------------------------------ conversions

  function Converted(env: Env, f: Field, v: Value): Option<Value> {
    if NumericInt(f) then (match env.toInt(v) case None => None case Some(i) => Some(Int(i)))
    else if f.CpuLimit? then (match env.toFloat(v) case None => None case Some(x) => Some(Float(x)))
    else if f.NetworkMode? || f.Scope? then Some(Text(Lower(env.toText(v))))
    else Some(Text(env.toText(v)))
  }

  /** Eight fields become integers, one a float and the rest text, two of them without capitals. */
  lemma ConvertedKinds(env: Env, f: Field, v: Value)
    ensures Converted(env, f, v) == None <==>
              || (env.toInt(v) == None && f in {MaxRunners, MinIdle, RepoDiscoveryTtl, GithubPollInterval, QueuedMinAge,
                                                StuckTimeout, RepoCheckWorkers, RunnerOperationWorkers})
              || (env.toFloat(v) == None && f == CpuLimit)
    ensures Converted(env, f, v).Some? ==>
              var x := Converted(env, f, v).value;
              && (x.Int? <==> f in {MaxRunners, MinIdle, RepoDiscoveryTtl, GithubPollInterval, QueuedMinAge,
                                    StuckTimeout, RepoCheckWorkers, RunnerOperationWorkers})
              && (x.Float? <==> f == CpuLimit)
              && (x.Int? ==> env.toInt(v) == Some(x.i)) && (x.Float? ==> env.toFloat(v) == Some(x.x))
              && (x.Text? && f !in {NetworkMode, Scope} ==> x.s == env.toText(v))
              && (f in {NetworkMode, Scope} ==>
                    SameLetters(x.s, env.toText(v)) && forall c :: c in x.s ==> !('A' <= c <= 'Z'))
  {
  }

  predicate SameLetters(a: string, b: string) { Lower(a) == Lower(b) }

  predicate Coercible(env: Env, data: Data) { forall f :: f in data ==> Converted(env, f, data[f]).Some? }

  /** `coerce_pool_fields`; None stands for the exception of a value that does not convert. */
  function Coerced(env: Env, data: Data): Option<Data> {
    if Coercible(env, data) then Some(map f | f in data :: Converted(env, f, data[f]).value) else None
  }

  method CoercePoolFields(env: Env, data: Data, order: seq<Field>) returns (out: Option<Data>)
    requires forall f :: f in order <==> f in data
    ensures out == Coerced(env, data)
  {
    var done: Data := map[];
    for i := 0 to |order|
      invariant forall f :: f in done <==> f in order[..i]
      invariant forall f :: f in done ==> Converted(env, f, data[f]) == Some(done[f])
    {
      var f := order[i];
      assert f in data && order[..i + 1] == order[..i] + [f];
      var v := Converted(env, f, data[f]);
      if v.None? {
        return None;
      }
      done := done[f := v.value];
    }
    assert order[..|order|] == order;
    forall f | f in data ensures f in done && Converted(env, f, data[f]) == Some(done[f]) { assert f in order; }
    assert done == map f | f in data :: Converted(env, f, data[f]).value;
    out := Some(done);
  }

  function TunablePart(data: Data): Data { map f | f in data && Tunable(f) :: data[f] }

  /** What goes wrong, if anything, when a pool is put together. */
  datatype Built = Raises | Unusable | Made(pool: Pool)

  /** `replace` of the tunable fields of a pool from config.yml. */
  function Overridden(env: Env, base: Pool, data: Data): Built {
    match Coerced(env, data)
    case None => Raises
    case Some(clean) => Made(base.(settings := base.settings + TunablePart(clean)))
  }

  function TokenFor(env: Env, data: Data): string {
    var name := if PatEnv in data then env.toText(data[PatEnv]) else "GITHUB_PAT";
    if name in env.environ then env.environ[name] else ""
  }

  /** The dataclass constructor: `owner` has no default, and unknown fields are refused. */
  function Constructed(env: Env, name: string, pat: string, fields: Data): Built {
    if Owner in fields && fields.Keys <= env.defaults.Keys + {Owner}
    then Made(Pool(name, pat, env.defaults + fields))
    else Unusable
  }

  /** The fields a row may give an API pool. */
  function Kept(data: Data): Data { map f | f in data && (Tunable(f) || Identity(f)) :: data[f] }

  function BuildUiPool(env: Env, name: string, data: Data): Built {
    var pat := TokenFor(env, data);
    if pat == "" then Unusable
    else
      match Coerced(env, Kept(data))
      case None => Raises
      case Some(fields) =>
        match Constructed(env, name, pat, fields - {Name})
        case Made(pool) => if env.usable(pool) then Made(pool) else Unusable
        case b => b
  }

  /** `_candidate_pool`: what an edit is checked as before its row is written. */
  function Candidate(env: Env, base: seq<Pool>, name: string, data: Data, origin: Origin): Built {
    if origin.Ui? then
      var pat := TokenFor(env, data);
      if pat == "" then Unusable
      else
        match Coerced(env, data - {PatEnv})
        case None => Raises
        case Some(fields) => Constructed(env, name, pat, fields - {Name})
    else
      match BaseNamed(base, name)
      case None => Unusable
      case Some(b) => Overridden(env, b, data)
  }

  function BaseNamed(base: seq<Pool>, name: string): Option<Pool> {
    if base == [] then None
    else if BaseNamed(base[..|base| - 1], name).Some? then BaseNamed(base[..|base| - 1], name)
    else if base[|base| - 1].name == name then Some(base[|base| - 1])
    else None
  }

  // ------------------------------------------------------------ resolving

  function Names(pools: seq<Pool>): set<string> { set p | p in pools :: p.name }

  function Push(pools: Option<seq<Pool>>, b: Built): Option<seq<Pool>> {
    if pools.None? || b.Raises? then None else if b.Made? then Some(pools.value + [b.pool]) else pools
  }

  /** One pool of config.yml under the overlay. */
  function BaseEffect(env: Env, b: Pool, rows: Rows): Built {
    if b.name !in rows then Made(b)
    else if rows[b.name].disabled then Unusable
    else Overridden(env, b, rows[b.name].data)
  }

  /** One row with no counterpart in config.yml. */
  function RowEffect(env: Env, name: string, row: Row): Built {
    if row.origin.Yaml? || row.disabled then Unusable else BuildUiPool(env, name, row.data)
  }

  /** What an API row says of its pool besides the name and the token. */
  function Own(data: Data): Data { map f | f in data && f !in {Name, PatEnv} && !f.Other? :: data[f] }

  lemma OwnIsKept(data: Data)
    ensures Own(data) == Kept(data) - {Name} && (Name in Kept(data) <==> Name in data)
    ensures Name in data ==> Kept(data)[Name] == data[Name]
  {
    forall f { FieldKinds(f); }
  }

  lemma WithoutNameConverts(env: Env, data: Data)
    ensures Coercible(env, data) <==>
              Coercible(env, data - {Name}) && (Name in data ==> Converted(env, Name, data[Name]).Some?)
    ensures Coercible(env, data) ==> Coerced(env, data).value - {Name} == Coerced(env, data - {Name}).value
  {
    var rest := data - {Name};
    if Coercible(env, rest) && (Name in data ==> Converted(env, Name, data[Name]).Some?) {
      forall f | f in data ensures Converted(env, f, data[f]).Some? {
        if f != Name { assert f in rest && rest[f] == data[f]; }
      }
    }
  }

  ghost predicate KnownFields(env: Env, data: Data) {
    Owner in data && forall f :: f in data && f != Owner ==> f in env.defaults
  }

  lemma ConstructedIff(env: Env, name: string, pat: string, data: Data, p: Pool)
    requires Coercible(env, data)
    ensures Constructed(env, name, pat, Coerced(env, data).value) == Made(p) <==>
              && KnownFields(env, data)
              && p == Pool(name, pat, env.defaults + map f | f in data :: Converted(env, f, data[f]).value)
  {
    var fields := Coerced(env, data).value;
    assert fields.Keys == data.Keys;
    assert fields.Keys <= env.defaults.Keys + {Owner} <==> forall f :: f in data && f != Owner ==> f in env.defaults;
  }

  lemma BuiltIff(env: Env, name: string, data: Data, p: Pool)
    ensures BuildUiPool(env, name, data) == Made(p) <==>
              && TokenFor(env, data) != "" && Coercible(env, Own(data))
              && (Name in data ==> Converted(env, Name, data[Name]).Some?)
              && Constructed(env, name, TokenFor(env, data), Coerced(env, Own(data)).value) == Made(p)
              && env.usable(p)
  {
    OwnIsKept(data);
    WithoutNameConverts(env, Kept(data));
  }

  /** An API row makes a pool exactly when it is on, its token is set, its values convert, it has an owner and
      only known fields, and the pool passes validation; the pool has that token and those values. */
  lemma RowMakesPoolIff(env: Env, name: string, row: Row, p: Pool)
    ensures RowEffect(env, name, row) == Made(p) <==>
              var token := if PatEnv in row.data then env.toText(row.data[PatEnv]) else "GITHUB_PAT";
              && row.origin.Ui? && !row.disabled
              && token in env.environ && env.environ[token] != ""
              && (forall f :: f in Own(row.data) ==> Converted(env, f, Own(row.data)[f]).Some?)
              && (Name in row.data ==> Converted(env, Name, row.data[Name]).Some?)
              && Owner in Own(row.data) && (forall f :: f in Own(row.data) && f != Owner ==> f in env.defaults)
              && p == Pool(name, env.environ[token],
                           env.defaults + map f | f in Own(row.data) :: Converted(env, f, Own(row.data)[f]).value)
              && env.usable(p)
  {
    BuiltIff(env, name, row.data, p);
    if Coercible(env, Own(row.data)) { ConstructedIff(env, name, TokenFor(env, row.data), Own(row.data), p); }
  }

  /** The first loop; each row is used up by the first pool of its name. */
  function BaseParts(env: Env, base: seq<Pool>, rows: Rows): Option<seq<Pool>> {
    if base == [] then Some([])
    else
      var rest, b := base[..|base| - 1], base[|base| - 1];
      Push(BaseParts(env, rest, rows), BaseEffect(env, b, rows - Names(rest)))
  }

  /** The second loop, over what the first left. */
  function UiParts(env: Env, pools: Option<seq<Pool>>, order: seq<string>, rows: Rows): Option<seq<Pool>> {
    if order == [] then pools
    else
      var rest, name := order[..|order| - 1], order[|order| - 1];
      var before := UiParts(env, pools, rest, rows);
      if name in rows then Push(before, RowEffect(env, name, rows[name])) else before
  }

  lemma BasePartsStep(env: Env, base: seq<Pool>, b: Pool, rows: Rows)
    ensures BaseParts(env, base + [b], rows) == Push(BaseParts(env, base, rows), BaseEffect(env, b, rows - Names(base)))
    ensures Names(base + [b]) == Names(base) + {b.name}
    ensures rows - Names(base + [b]) == rows - Names(base) - {b.name}
  {
    assert (base + [b])[..|base|] == base;
  }

  lemma UiPartsStep(env: Env, pools: Option<seq<Pool>>, order: seq<string>, name: string, rows: Rows)
    ensures UiParts(env, pools, order + [name], rows)
         == var before := UiParts(env, pools, order, rows);
            if name in rows then Push(before, RowEffect(env, name, rows[name])) else before
    ensures Listed(order + [name]) == Listed(order) + {name}
  {
    assert (order + [name])[..|order|] == order;
  }

  function Listed(order: seq<string>): set<string> { set n | n in order }

  function Resolved(env: Env, base: seq<Pool>, rows: Rows, order: seq<string>): Option<seq<Pool>> {
    UiParts(env, BaseParts(env, base, rows), order, rows - Names(base))
  }

  /** What the overlay means for one pool name, with no loops in sight. */
  function Effect(env: Env, base: seq<Pool>, rows: Rows, name: string): Built {
    match BaseNamed(base, name)
    case Some(b) => BaseEffect(env, b, rows)
    case None => if name in rows then RowEffect(env, name, rows[name]) else Unusable
  }

  ghost predicate NoRepeats(order: seq<string>) { forall i, j :: 0 <= i < j < |order| ==> order[i] != order[j] }

  ghost predicate DistinctNames(pools: seq<Pool>) {
    forall i, j :: 0 <= i < j < |pools| ==> pools[i].name != pools[j].name
  }

  /** The rows in the order the database lists them. */
  ghost predicate Lists(order: seq<string>, rows: Rows) {
    NoRepeats(order) && forall name :: name in order <==> name in rows
  }

  lemma {:induction false} BaseNamedMember(base: seq<Pool>, name: string)
    ensures BaseNamed(base, name).Some? <==> name in Names(base)
    ensures BaseNamed(base, name).Some? ==>
              BaseNamed(base, name).value in base && BaseNamed(base, name).value.name == name
  {
    if base != [] {
      var rest, b := base[..|base| - 1], base[|base| - 1];
      assert base == rest + [b];
      BaseNamedMember(rest, name);
    }
  }

  lemma {:induction false} BaseNamedIs(base: seq<Pool>, b: Pool)
    requires DistinctNames(base) && b in base
    ensures BaseNamed(base, b.name) == Some(b)
  {
    var rest, last := base[..|base| - 1], base[|base| - 1];
    assert base == rest + [last];
    BaseNamedMember(rest, b.name);
    if b in rest {
      BaseNamedIs(rest, b);
    }
  }

  /** `pools` is exactly what these names mean, each once. */
  ghost predicate Means(pools: seq<Pool>, env: Env, base: seq<Pool>, rows: Rows, names: set<string>) {
    && DistinctNames(pools)
    && Names(pools) <= names
    && (forall p :: p in pools ==> Effect(env, base, rows, p.name) == Made(p))
    && (forall n :: n in names && Effect(env, base, rows, n).Made? ==> n in Names(pools))
    && (forall n :: n in names ==> !Effect(env, base, rows, n).Raises?)
  }

  lemma MeansGrows(pools: seq<Pool>, env: Env, base: seq<Pool>, rows: Rows, names: set<string>, name: string)
    requires Means(pools, env, base, rows, names) && name !in names
    requires var b := Effect(env, base, rows, name); b.Made? ==> b.pool.name == name
    ensures var next := Push(Some(pools), Effect(env, base, rows, name));
            next.Some? ==> Means(next.value, env, base, rows, names + {name})
  {
    var b := Effect(env, base, rows, name);
    if b.Made? {
      var next := pools + [b.pool];
      assert Names(next) == Names(pools) + {name};
      forall i | 0 <= i < |pools| ensures pools[i].name != name { assert pools[i].name in Names(pools); }
      forall p | p in next ensures Effect(env, base, rows, p.name) == Made(p) { assert p in pools || p == b.pool; }
    }
  }

  lemma LastIsNew(rest: seq<Pool>, b: Pool, all: seq<Pool>)
    requires DistinctNames(all) && rest + [b] <= all
    ensures b in all && b.name !in Names(rest)
  {
    assert all[|rest|] == b;
    forall p | p in rest ensures p.name != b.name {
      var k :| 0 <= k < |rest| && rest[k] == p;
      assert all[k] == p;
    }
  }

  lemma {:induction false} BasePartsMean(env: Env, base: seq<Pool>, all: seq<Pool>, rows: Rows)
    requires DistinctNames(all) && base <= all
    requires BaseParts(env, base, rows).Some?
    ensures Means(BaseParts(env, base, rows).value, env, all, rows, Names(base))
  {
    if base != [] {
      var rest, b := base[..|base| - 1], base[|base| - 1];
      assert base == rest + [b];
      BasePartsStep(env, rest, b, rows);
      LastIsNew(rest, b, all);
      BaseNamedIs(all, b);
      BasePartsMean(env, rest, all, rows);
      assert BaseEffect(env, b, rows - Names(rest)) == Effect(env, all, rows, b.name);
      MeansGrows(BaseParts(env, rest, rows).value, env, all, rows, Names(rest), b.name);
    }
  }

  /** The names both loops have dealt with. */
  ghost function Covered(base: seq<Pool>, order: seq<string>, rows: Rows): set<string> {
    Names(base) + (Listed(order) * rows.Keys)
  }

  lemma CoveredGrows(base: seq<Pool>, rest: seq<string>, name: string, rows: Rows)
    requires NoRepeats(rest + [name])
    ensures name in rows - Names(base) ==>
              && name !in Covered(base, rest, rows)
              && Covered(base, rest + [name], rows) == Covered(base, rest, rows) + {name}
    ensures name !in rows - Names(base) ==> Covered(base, rest + [name], rows) == Covered(base, rest, rows)
  {
    assert (rest + [name])[|rest|] == name;
    forall k | 0 <= k < |rest| ensures rest[k] != name { assert (rest + [name])[k] == rest[k]; }
    assert Listed(rest + [name]) == Listed(rest) + {name};
  }

  lemma {:induction false} UiPartsMean(env: Env, base: seq<Pool>, rows: Rows, pools: Option<seq<Pool>>,
                                       order: seq<string>)
    requires pools.Some? ==> Means(pools.value, env, base, rows, Names(base))
    requires NoRepeats(order) && UiParts(env, pools, order, rows - Names(base)).Some?
    ensures Means(UiParts(env, pools, order, rows - Names(base)).value, env, base, rows, Covered(base, order, rows))
  {
    var left := rows - Names(base);
    if order == [] {
      assert Covered(base, order, rows) == Names(base);
    } else {
      var rest, name := order[..|order| - 1], order[|order| - 1];
      assert order == rest + [name];
      UiPartsStep(env, pools, rest, name, left);
      UiPartsMean(env, base, rows, pools, rest);
      CoveredGrows(base, rest, name, rows);
      BaseNamedMember(base, name);
      if name in left {
        MeansGrows(UiParts(env, pools, rest, left).value, env, base, rows, Covered(base, rest, rows), name);
      }
    }
  }

  /** For distinct names in config.yml, `resolve` returns each name's meaning, once, and nothing else. */
  lemma ResolveIsPerName(env: Env, base: seq<Pool>, rows: Rows, order: seq<string>)
    requires DistinctNames(base) && Lists(order, rows) && Resolved(env, base, rows, order).Some?
    ensures Means(Resolved(env, base, rows, order).value, env, base, rows, Names(base) + rows.Keys)
  {
    assert base <= base;
    if BaseParts(env, base, rows).Some? { BasePartsMean(env, base, base, rows); }
    UiPartsMean(env, base, rows, BaseParts(env, base, rows), order);
    assert Listed(order) * rows.Keys == rows.Keys;
  }

  /** Nothing an override row says can change a pool's name, token or any field that is not tunable. */
  lemma OverridesOnlyTune(env: Env, b: Pool, rows: Rows, f: Field)
    requires BaseEffect(env, b, rows).Made?
    ensures var p := BaseEffect(env, b, rows).pool;
            && p.name == b.name && p.pat == b.pat
            && (!Tunable(f) ==>
                  (f in p.settings <==> f in b.settings) && (f in b.settings ==> p.settings[f] == b.settings[f]))
            && (b.name in rows && Tunable(f) && f in rows[b.name].data ==>
                  f in p.settings && Converted(env, f, rows[b.name].data[f]) == Some(p.settings[f]))
  {
  }

  /** The pools of config.yml that no row switches off, in their order. */
  function Enabled(base: seq<Pool>, rows: Rows): seq<Pool> {
    if base == [] then []
    else
      var b := base[|base| - 1];
      Enabled(base[..|base| - 1], rows) + if b.name in rows && rows[b.name].disabled then [] else [b]
  }

  function NameList(pools: seq<Pool>): seq<string> { seq(|pools|, i requires 0 <= i < |pools| => pools[i].name) }

  lemma NameListGrows(pools: seq<Pool>, p: Pool)
    ensures NameList(pools + [p]) == NameList(pools) + [p.name]
  {
  }

  lemma {:induction false} BasePartsKeepOrder(env: Env, base: seq<Pool>, rows: Rows)
    requires DistinctNames(base) && BaseParts(env, base, rows).Some?
    ensures NameList(BaseParts(env, base, rows).value) == NameList(Enabled(base, rows))
  {
    if base != [] {
      var rest, b := base[..|base| - 1], base[|base| - 1];
      BasePartsKeepOrder(env, rest, rows);
      assert b.name !in Names(rest);
      var effect := BaseEffect(env, b, rows - Names(rest));
      if effect.Made? {
        NameListGrows(BaseParts(env, rest, rows).value, effect.pool);
        NameListGrows(Enabled(rest, rows), b);
      }
    }
  }

  lemma {:induction false} UiPartsExtend(env: Env, pools: Option<seq<Pool>>, order: seq<string>, rows: Rows)
    requires UiParts(env, pools, order, rows).Some?
    ensures pools.Some? && pools.value <= UiParts(env, pools, order, rows).value
    ensures forall i :: |pools.value| <= i < |UiParts(env, pools, order, rows).value| ==>
              var p := UiParts(env, pools, order, rows).value[i];
              p.name in rows && rows[p.name].origin.Ui? && !rows[p.name].disabled && env.usable(p)
  {
    if order != [] { UiPartsExtend(env, pools, order[..|order| - 1], rows); }
  }

  /** `resolve` lists the pools of config.yml in order minus the disabled ones, and only then the
      usable, enabled pools made through the API. */
  lemma ResolveKeepsOrder(env: Env, base: seq<Pool>, rows: Rows, order: seq<string>)
    requires DistinctNames(base) && Resolved(env, base, rows, order).Some?
    ensures var pools, kept := Resolved(env, base, rows, order).value, NameList(Enabled(base, rows));
            && |kept| <= |pools| && NameList(pools)[..|kept|] == kept
            && (forall i :: |kept| <= i < |pools| ==>
                  && pools[i].name in rows && rows[pools[i].name].origin.Ui? && !rows[pools[i].name].disabled
                  && env.usable(pools[i]) && pools[i].name !in Names(base))
  {
    var left := rows - Names(base);
    UiPartsExtend(env, BaseParts(env, base, rows), order, left);
    BasePartsKeepOrder(env, base, rows);
  }

  lemma {:induction false} NoRowsNoChange(env: Env, base: seq<Pool>, rows: Rows)
    requires rows.Keys == {}
    ensures BaseParts(env, base, rows) == Some(base)
  {
    if base != [] {
      var rest, b := base[..|base| - 1], base[|base| - 1];
      NoRowsNoChange(env, rest, rows);
      assert base == rest + [b];
      BasePartsStep(env, rest, b, rows);
      assert b.name !in rows.Keys;
    }
  }

  /** With an empty overlay `resolve` is the identity. */
  lemma EmptyOverlayIsIdentity(env: Env, base: seq<Pool>)
    ensures Resolved(env, base, map[], []) == Some(base)
  {
    NoRowsNoChange(env, base, map[]);
  }

  // ------------------------------------------------------------ the loops

  lemma {:induction false} BasePartsFail(env: Env, base: seq<Pool>, rows: Rows, i: nat)
    requires i <= |base| && BaseParts(env, base[..i], rows).None?
    ensures BaseParts(env, base, rows).None?
    decreases |base|
  {
    if i < |base| {
      var rest := base[..|base| - 1];
      assert rest[..i] == base[..i];
      BasePartsFail(env, rest, rows, i);
    } else {
      assert base[..i] == base;
    }
  }

  lemma {:induction false} UiPartsFail(env: Env, pools: Option<seq<Pool>>, order: seq<string>, rows: Rows, i: nat)
    requires i <= |order| && UiParts(env, pools, order[..i], rows).None?
    ensures UiParts(env, pools, order, rows).None?
    decreases |order|
  {
    if i < |order| {
      var rest := order[..|order| - 1];
      assert rest[..i] == order[..i];
      UiPartsFail(env, pools, rest, rows, i);
    } else {
      assert order[..i] == order;
    }
  }

  /** The loop over config.yml: each pool takes its row out of the overrides. */
  method ResolveBase(env: Env, base: seq<Pool>, rows: Rows) returns (pools: Option<seq<Pool>>, left: Rows)
    ensures pools == BaseParts(env, base, rows)
    ensures pools.Some? ==> left == rows - Names(base)
  {
    left := rows;
    var out: seq<Pool> := [];
    for i := 0 to |base|
      invariant left == rows - Names(base[..i]) && BaseParts(env, base[..i], rows) == Some(out)
    {
      var b := base[i];
      assert base[..i + 1] == base[..i] + [b];
      BasePartsStep(env, base[..i], b, rows);
      if b.name !in left {
        out := out + [b];
        continue;
      }
      var entry := left[b.name];
      left := left - {b.name};
      if entry.disabled {
        continue;
      }
      var built := Overridden(env, b, entry.data);
      if built.Raises? {
        BasePartsFail(env, base, rows, i + 1);
        return None, left;
      }
      out := out + [built.pool];
    }
    assert base[..|base|] == base;
    pools := Some(out);
  }

  /** The loop over the rows left over. */
  method ResolveRows(env: Env, kept: seq<Pool>, order: seq<string>, left: Rows) returns (pools: Option<seq<Pool>>)
    ensures pools == UiParts(env, Some(kept), order, left)
  {
    var out := kept;
    for i := 0 to |order|
      invariant UiParts(env, Some(kept), order[..i], left) == Some(out)
    {
      var name := order[i];
      assert order[..i + 1] == order[..i] + [name];
      UiPartsStep(env, Some(kept), order[..i], name, left);
      if name !in left || left[name].origin.Yaml? || left[name].disabled {
        continue;
      }
      var built := BuildUiPool(env, name, left[name].data);
      if built.Raises? {
        UiPartsFail(env, Some(kept), order, left, i + 1);
        return None;
      }
      if built.Made? {
        out := out + [built.pool];
      }
    }
    assert order[..|order|] == order;
    pools := Some(out);
  }

  method Resolve(env: Env, base: seq<Pool>, rows: Rows, order: seq<string>) returns (pools: Option<seq<Pool>>)
    requires Lists(order, rows)
    ensures pools == Resolved(env, base, rows, order)
  {
    var kept, left := ResolveBase(env, base, rows);
    if kept.None? {
      UiPartsFail(env, kept, order, rows - Names(base), 0);
      return None;
    }
    pools := ResolveRows(env, kept.value, order, left);
  }

  // ------------------------------------------------------------ one name, whatever config.yml repeats

  /** The pools of one name, in order. */
  function Named(pools: seq<Pool>, name: string): seq<Pool> {
    if pools == [] then []
    else
      var p := pools[|pools| - 1];
      Named(pools[..|pools| - 1], name) + if p.name == name then [p] else []
  }

  lemma NamedStep(pools: seq<Pool>, p: Pool, name: string)
    ensures Named(pools + [p], name) == Named(pools, name) + if p.name == name then [p] else []
  {
    assert (pools + [p])[..|pools|] == pools;
  }

  lemma {:induction false} NamedMember(pools: seq<Pool>, name: string)
    ensures name in Names(pools) <==> Named(pools, name) != []
  {
    if pools != [] {
      assert pools == pools[..|pools| - 1] + [pools[|pools| - 1]];
      NamedMember(pools[..|pools| - 1], name);
    }
  }

  /** What one more pool or row contributes to a name. */
  function Contribution(b: Built, name: string): seq<Pool> {
    if b.Made? && b.pool.name == name then [b.pool] else []
  }

  lemma PushNamed(pools: Option<seq<Pool>>, b: Built, name: string)
    requires Push(pools, b).Some?
    ensures pools.Some? && Named(Push(pools, b).value, name) == Named(pools.value, name) + Contribution(b, name)
  {
    if b.Made? { NamedStep(pools.value, b.pool, name); }
  }

  /** The first copy in config.yml uses up the name's row; the others run as they are. */
  function Remaining(env: Env, copies: seq<Pool>, rows: Rows, name: string): seq<Pool> {
    if copies == [] then [] else Contribution(BaseEffect(env, copies[0], rows), name) + copies[1..]
  }

  lemma BaseEffectNamed(env: Env, b: Pool, rows: Rows, name: string)
    ensures b.name != name ==> Contribution(BaseEffect(env, b, rows), name) == []
    ensures b.name !in rows && b.name == name ==> Contribution(BaseEffect(env, b, rows), name) == [b]
  {
  }

  lemma FirstCopy(env: Env, b: Pool, rows: Rows, before: set<string>)
    requires b.name !in before
    ensures Remaining(env, [b], rows, b.name) == Contribution(BaseEffect(env, b, rows - before), b.name)
  {
  }

  lemma LaterCopy(env: Env, copies: seq<Pool>, b: Pool, rows: Rows, name: string)
    requires copies != []
    ensures Remaining(env, copies + [b], rows, name) == Remaining(env, copies, rows, name) + [b]
  {
    assert (copies + [b])[1..] == copies[1..] + [b];
  }

  lemma RemainingGrows(env: Env, rest: seq<Pool>, b: Pool, rows: Rows, name: string)
    ensures Remaining(env, Named(rest + [b], name), rows, name)
         == Remaining(env, Named(rest, name), rows, name) + Contribution(BaseEffect(env, b, rows - Names(rest)), name)
  {
    var copies := Named(rest, name);
    NamedStep(rest, b, name);
    NamedMember(rest, name);
    BaseEffectNamed(env, b, rows - Names(rest), name);
    if b.name == name {
      if copies == [] {
        FirstCopy(env, b, rows, Names(rest));
      } else {
        LaterCopy(env, copies, b, rows, name);
      }
    }
  }

  lemma {:induction false} FirstCopyConverts(env: Env, base: seq<Pool>, rows: Rows, name: string)
    requires BaseParts(env, base, rows).Some? && Named(base, name) != []
    ensures Named(base, name)[0].name == name && !BaseEffect(env, Named(base, name)[0], rows).Raises?
  {
    var rest, b := base[..|base| - 1], base[|base| - 1];
    if Named(rest, name) != [] {
      FirstCopyConverts(env, rest, rows, name);
    } else {
      NamedMember(rest, name);
      assert BaseEffect(env, b, rows - Names(rest)) == BaseEffect(env, b, rows);
    }
  }

  /** Nothing is kept of a name exactly when its one copy is switched off. */
  lemma RemainingNone(env: Env, copies: seq<Pool>, rows: Rows, name: string)
    requires copies != [] && copies[0].name == name && !BaseEffect(env, copies[0], rows).Raises?
    ensures Remaining(env, copies, rows, name) == [] <==> name in rows && rows[name].disabled && |copies| == 1
  {
  }

  lemma {:induction false} BasePartsNamed(env: Env, base: seq<Pool>, rows: Rows, name: string)
    requires BaseParts(env, base, rows).Some?
    ensures Named(BaseParts(env, base, rows).value, name) == Remaining(env, Named(base, name), rows, name)
  {
    if base != [] {
      var rest, b := base[..|base| - 1], base[|base| - 1];
      BasePartsNamed(env, rest, rows, name);
      PushNamed(BaseParts(env, rest, rows), BaseEffect(env, b, rows - Names(rest)), name);
      RemainingGrows(env, rest, b, rows, name);
      assert base == rest + [b];
    }
  }

  /** What the rows left over add to a name. */
  function Added(env: Env, order: seq<string>, rows: Rows, name: string): seq<Pool> {
    if name in order && name in rows then Contribution(RowEffect(env, name, rows[name]), name) else []
  }

  lemma AddedGrows(env: Env, rest: seq<string>, last: string, rows: Rows, name: string)
    requires NoRepeats(rest + [last])
    ensures Added(env, rest + [last], rows, name)
         == Added(env, rest, rows, name)
          + if last in rows then Contribution(RowEffect(env, last, rows[last]), name) else []
  {
    assert (rest + [last])[|rest|] == last;
    forall k | 0 <= k < |rest| ensures rest[k] != last { assert (rest + [last])[k] == rest[k]; }
  }

  lemma {:induction false} UiPartsNamed(env: Env, pools: Option<seq<Pool>>, order: seq<string>, rows: Rows,
                                        name: string)
    requires NoRepeats(order) && UiParts(env, pools, order, rows).Some?
    ensures pools.Some?
    ensures Named(UiParts(env, pools, order, rows).value, name)
         == Named(pools.value, name) + Added(env, order, rows, name)
  {
    if order != [] {
      var rest, last := order[..|order| - 1], order[|order| - 1];
      UiPartsNamed(env, pools, rest, rows, name);
      assert order == rest + [last];
      AddedGrows(env, rest, last, rows, name);
      if last in rows { PushNamed(UiParts(env, pools, rest, rows), RowEffect(env, last, rows[last]), name); }
    }
  }

  /** What `resolve` returns under one name, for any config.yml. */
  function Meaning(env: Env, base: seq<Pool>, rows: Rows, name: string): seq<Pool> {
    var copies := Named(base, name);
    if copies != [] then Remaining(env, copies, rows, name)
    else Added(env, [name], rows, name)
  }

  lemma {:induction false} NamedAre(pools: seq<Pool>, name: string)
    ensures forall p :: p in Named(pools, name) ==> p.name == name
  {
    if pools != [] { NamedAre(pools[..|pools| - 1], name); }
  }

  /** It depends on no row but the name's own. */
  lemma MeaningByRow(env: Env, base: seq<Pool>, rows: Rows, others: Rows, name: string)
    requires (name in rows <==> name in others) && (name in rows ==> rows[name] == others[name])
    ensures Meaning(env, base, rows, name) == Meaning(env, base, others, name)
  {
    NamedAre(base, name);
    if Named(base, name) != [] { assert Named(base, name)[0].name == name; }
  }

  lemma ResolvedNamed(env: Env, base: seq<Pool>, rows: Rows, order: seq<string>, name: string)
    requires Lists(order, rows) && Resolved(env, base, rows, order).Some?
    ensures Named(Resolved(env, base, rows, order).value, name) == Meaning(env, base, rows, name)
  {
    UiPartsNamed(env, BaseParts(env, base, rows), order, rows - Names(base), name);
    BasePartsNamed(env, base, rows, name);
    NamedMember(base, name);
  }

  // ------------------------------------------------------------ rows that convert

  ghost predicate AllCoercible(env: Env, rows: Rows) { forall n :: n in rows ==> Coercible(env, rows[n].data) }

  lemma {:induction false} BasePartsSucceed(env: Env, base: seq<Pool>, rows: Rows)
    requires AllCoercible(env, rows)
    ensures BaseParts(env, base, rows).Some?
  {
    if base != [] { BasePartsSucceed(env, base[..|base| - 1], rows); }
  }

  lemma {:induction false} UiPartsSucceed(env: Env, pools: Option<seq<Pool>>, order: seq<string>, rows: Rows)
    requires AllCoercible(env, rows) && pools.Some?
    ensures UiParts(env, pools, order, rows).Some?
  {
    if order != [] { UiPartsSucceed(env, pools, order[..|order| - 1], rows); }
  }

  /** `resolve` does not raise when every stored value converts. */
  lemma CoercibleRowsResolve(env: Env, base: seq<Pool>, rows: Rows, order: seq<string>)
    requires AllCoercible(env, rows)
    ensures Resolved(env, base, rows, order).Some?
  {
    BasePartsSucceed(env, base, rows);
    UiPartsSucceed(env, BaseParts(env, base, rows), order, rows - Names(base));
  }
}
