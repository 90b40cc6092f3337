/** Which pool a runner container belongs to: every pool finds its own by a name prefix. */
module ContainerOwnership {
  import opened Common

  datatype Pool = Pool(name: string, instance: string)

  function Safe(name: string): (r: string)
    ensures |r| == |name|
  {
    var lower := Lower(name);
    seq(|name|, i requires 0 <= i < |name| => if lower[i] == ' ' || lower[i] == '/' then '-' else lower[i])
  }

  function Prefix(p: Pool): string {
    if p.instance != "" then "gh-runner-" + p.instance + "-" + Safe(p.name) else "gh-runner-" + Safe(p.name)
  }

  /** The runtime pool of one repository of a personal pool. */
  function ForRepository(p: Pool, repo: string): Pool { p.(name := p.name + "-" + repo) }

  /** The name a spawned container gets; the uid is eight hexadecimal digits. */
  function Container(p: Pool, uid: string): string { Prefix(p) + "-" + uid }

  /** A name starts with what a pattern without groups describes; a dot fits any character. */
  predicate Fits(pattern: string, name: string) {
    |pattern| <= |name| && forall i :: 0 <= i < |pattern| ==> pattern[i] == '.' || pattern[i] == name[i]
  }

  function Pattern(p: Pool): string { Prefix(p) + "-" }

  /** A pattern with its parentheses taken out: they group, and stand for no character themselves. */
  function Ungrouped(pattern: string): string {
    if pattern == "" then ""
    else if pattern[0] == '(' || pattern[0] == ')' then Ungrouped(pattern[1..])
    else [pattern[0]] + Ungrouped(pattern[1..])
  }

  /** `docker ps --filter name=^prefix-` reads the prefix as a pattern. */
  predicate Claims(p: Pool, container: string) { Fits(Ungrouped(Pattern(p)), container) }

  /** The characters a container's name may be made of, in lower case; only the dot means more in a pattern. */
  predicate NameChar(c: char) { 'a' <= c <= 'z' || '0' <= c <= '9' || c == '_' || c == '.' || c == '-' }

  predicate Nameable(s: string) { forall i :: 0 <= i < |s| ==> NameChar(s[i]) }

  /** The pool's prefix can begin a container's name. Nothing checks that it can. */
  predicate Readable(p: Pool) { Nameable(Prefix(p)) }

  /** It can exactly when the pool's name is made of such characters and capitals, spaces and slashes. */
  lemma ReadableIff(p: Pool)
    requires forall c :: c in p.instance ==> 'a' <= c <= 'z' || '0' <= c <= '9'
    ensures Readable(p) <==>
              forall c :: c in p.name ==>
                || 'a' <= c <= 'z' || 'A' <= c <= 'Z' || '0' <= c <= '9'
                || c == ' ' || c == '/' || c == '_' || c == '.' || c == '-'
  {
    var head := if p.instance != "" then "gh-runner-" + p.instance + "-" else "gh-runner-";
    var n := |head|;
    assert Prefix(p) == head + Safe(p.name);
    forall i | 0 <= i < n ensures NameChar(head[i]) {
      if 10 <= i < 10 + |p.instance| { assert head[i] == p.instance[i - 10] && head[i] in p.instance; }
    }
    forall i | 0 <= i < |p.name|
      ensures Prefix(p)[n + i] == Safe(p.name)[i]
      ensures NameChar(Safe(p.name)[i]) <==>
                var c := p.name[i];
                || 'a' <= c <= 'z' || 'A' <= c <= 'Z' || '0' <= c <= '9'
                || c == ' ' || c == '/' || c == '_' || c == '.' || c == '-'
    {
    }
    if Readable(p) {
      forall i | 0 <= i < |p.name| ensures NameChar(Safe(p.name)[i]) { assert NameChar(Prefix(p)[n + i]); }
    } else {
      var i :| 0 <= i < |Prefix(p)| && !NameChar(Prefix(p)[i]);
      assert Prefix(p)[i] == Safe(p.name)[i - n] && p.name[i - n] in p.name;
    }
  }

  lemma {:induction false} NameableHasNoGroups(s: string)
    requires Nameable(s)
    ensures Ungrouped(s) == s
  {
    if s != "" { NameableHasNoGroups(s[1..]); }
  }

  lemma {:induction false} UngroupedParts(a: string, b: string)
    ensures Ungrouped(a + b) == Ungrouped(a) + Ungrouped(b)
  {
    if a == "" {
      assert a + b == b;
    } else {
      assert (a + b)[1..] == a[1..] + b;
      UngroupedParts(a[1..], b);
    }
  }

  lemma ReadableClaims(p: Pool, container: string)
    requires Readable(p)
    ensures Claims(p, container) <==> Fits(Pattern(p), container)
  {
    NameableHasNoGroups(Pattern(p));
  }

  predicate Plain(p: Pool) { '.' !in Prefix(p) }

  /** The overlap the startup check looks for. */
  predicate Overlaps(a: string, b: string) { a + "-" <= b }

  lemma DashInId(b: string, uid: string, i: int)
    requires |b| < i < |b + "-" + uid| && (b + "-" + uid)[i] == '-'
    ensures '-' in uid
  {
    assert uid[i - |b| - 1] == '-';
  }

  /** A pattern's closing dash cannot lie in a dash-free id, so it lies in the other's pattern. */
  lemma FitsWithin(a: string, b: string, uid: string)
    requires '-' !in uid
    ensures Fits(a + "-", b + "-" + uid) <==> Fits(a + "-", b + "-")
  {
    var pattern, whole, head := a + "-", b + "-" + uid, b + "-";
    assert forall i :: 0 <= i < |head| ==> whole[i] == head[i];
    if Fits(pattern, whole) {
      assert pattern[|a|] == '-' == whole[|a|];
      if |a| > |b| { DashInId(b, uid, |a|); }
    }
  }

  /** A pool claims a container of another if and only if its pattern fits the other's pattern. */
  lemma ClaimsIff(p: Pool, q: Pool, uid: string)
    requires Readable(p) && '-' !in uid
    ensures Claims(p, Container(q, uid)) <==> Fits(Pattern(p), Pattern(q))
  {
    ReadableClaims(p, Container(q, uid));
    FitsWithin(Prefix(p), Prefix(q), uid);
  }

  lemma PlainFits(a: string, s: string)
    requires '.' !in a
    ensures Fits(a + "-", s) <==> a + "-" <= s
  {
    var pattern := a + "-";
    forall i | 0 <= i < |pattern| ensures pattern[i] != '.' {
      if i < |a| { assert pattern[i] in a; }
    }
    if Fits(pattern, s) { assert pattern == s[..|pattern|]; }
  }

  lemma NestsIff(a: string, b: string)
    ensures a + "-" <= b + "-" <==> a == b || a + "-" <= b
  {
    var c := b + "-";
    if a + "-" <= c {
      assert a == c[..|a|];
      if |a| < |b| { assert a + "-" == c[..|a| + 1] == b[..|a| + 1]; }
    }
    if a + "-" <= b { assert c[..|a| + 1] == b[..|a| + 1]; }
  }

  /** Where the claimant's prefix has no dot: if and only if the prefixes are equal or overlap. */
  lemma ClaimsIffOverlap(p: Pool, q: Pool, uid: string)
    requires Readable(p) && Plain(p) && '-' !in uid
    ensures Claims(p, Container(q, uid)) <==> Prefix(p) == Prefix(q) || Overlaps(Prefix(p), Prefix(q))
  {
    ClaimsIff(p, q, uid);
    PlainFits(Prefix(p), Pattern(q));
    NestsIff(Prefix(p), Prefix(q));
  }

  lemma SafeOfRepository(name: string, repo: string)
    ensures Safe(name + "-" + repo) == Safe(name) + "-" + Safe(repo)
  {
    var whole, parts := name + "-" + repo, Safe(name) + "-" + Safe(repo);
    forall k | 0 <= k < |whole| ensures Safe(whole)[k] == parts[k] {
      if k > |name| { assert whole[k] == repo[k - |name| - 1]; }
    }
  }

  /** A repository's runtime pool extends its pool's prefix, so the pool finds its containers. */
  lemma RepositoryPrefix(p: Pool, repo: string)
    ensures Prefix(ForRepository(p, repo)) == Prefix(p) + "-" + Safe(repo)
  {
    SafeOfRepository(p.name, repo);
    var head := if p.instance != "" then "gh-runner-" + p.instance + "-" else "gh-runner-";
    var whole := Prefix(ForRepository(p, repo));
    assert Prefix(p) == head + Safe(p.name);
    assert whole == head + (Safe(p.name) + "-" + Safe(repo)) == (head + Safe(p.name)) + "-" + Safe(repo);
  }

  lemma RepositoryContainersAreFound(p: Pool, repo: string, uid: string)
    requires Readable(p)
    ensures Claims(p, Container(ForRepository(p, repo), uid))
  {
    RepositoryPrefix(p, repo);
    ReadableClaims(p, Container(ForRepository(p, repo), uid));
    assert Container(ForRepository(p, repo), uid) == (Prefix(p) + "-") + (Safe(repo) + "-" + uid);
  }

  /** Whatever a repository's pool finds, its pool finds. */
  lemma RepositoryClaimsWithinPool(p: Pool, repo: string, container: string)
    requires Readable(p) && Readable(ForRepository(p, repo)) && Claims(ForRepository(p, repo), container)
    ensures Claims(p, container)
  {
    var whole, head := Pattern(ForRepository(p, repo)), Pattern(p);
    RepositoryPrefix(p, repo);
    ReadableClaims(p, container);
    ReadableClaims(ForRepository(p, repo), container);
    assert whole == head + (Safe(repo) + "-");
    forall i | 0 <= i < |head| ensures head[i] == '.' || head[i] == container[i] { assert whole[i] == head[i]; }
  }

  lemma FitsBeyond(head: string, a: string, b: string)
    ensures Fits(head + a, head + b) <==> Fits(a, b)
  {
    var x, y := head + a, head + b;
    if Fits(x, y) {
      forall i | 0 <= i < |a| ensures a[i] == '.' || a[i] == b[i] { assert x[|head| + i] == a[i]; }
    }
  }

  /** One repository of an account claims another's containers if and only if its name's pattern fits the
      other's name. */
  lemma SiblingsClaimIff(p: Pool, repo: string, other: string, uid: string)
    requires Readable(ForRepository(p, repo)) && '-' !in uid
    ensures Claims(ForRepository(p, repo), Container(ForRepository(p, other), uid))
       <==> Fits(Safe(repo) + "-", Safe(other) + "-")
  {
    ClaimsIff(ForRepository(p, repo), ForRepository(p, other), uid);
    RepositoryPrefix(p, repo);
    RepositoryPrefix(p, other);
    assert Pattern(ForRepository(p, repo)) == Pattern(p) + (Safe(repo) + "-");
    assert Pattern(ForRepository(p, other)) == Pattern(p) + (Safe(other) + "-");
    FitsBeyond(Pattern(p), Safe(repo) + "-", Safe(other) + "-");
  }

  /** Where the repository's name has no dot: if and only if the names are the same but for case, or the
      other's goes on after it with a dash. */
  lemma PlainSiblingsClaimIff(p: Pool, repo: string, other: string, uid: string)
    requires Readable(ForRepository(p, repo)) && '.' !in Safe(repo) && '-' !in uid
    ensures Claims(ForRepository(p, repo), Container(ForRepository(p, other), uid))
       <==> Safe(repo) == Safe(other) || Overlaps(Safe(repo), Safe(other))
  {
    SiblingsClaimIff(p, repo, other, uid);
    PlainFits(Safe(repo), Safe(other) + "-");
    NestsIff(Safe(repo), Safe(other));
  }

  // ------------------------------------------------------------ the startup warnings

  /** What the check compares: a pool's name and its prefix. */
  datatype Named = Named(name: string, prefix: string)

  datatype Warning = DefinedTwice(name: string) | OverlapsWith(name: string, other: string)

  function View(pools: seq<Pool>): seq<Named> {
    seq(|pools|, i requires 0 <= i < |pools| => Named(pools[i].name, Prefix(pools[i])))
  }

  predicate Clashes(p: Named, q: Named) { q.name != p.name && Overlaps(p.prefix, q.prefix) }

  function OverlapWarnings(p: Named, others: seq<Named>): seq<Warning> {
    if others == [] then []
    else
      var q := others[|others| - 1];
      OverlapWarnings(p, others[..|others| - 1]) + if Clashes(p, q) then [OverlapsWith(p.name, q.name)] else []
  }

  function NamesUpTo(pools: seq<Named>, n: nat): set<string>
    requires n <= |pools|
  {
    set i | 0 <= i < n :: pools[i].name
  }

  function TwiceWarning(pools: seq<Named>, i: nat): seq<Warning>
    requires i < |pools|
  {
    if pools[i].name in NamesUpTo(pools, i) then [DefinedTwice(pools[i].name)] else []
  }

  predicate QuietAt(pools: seq<Named>, i: nat)
    requires i < |pools|
  {
    TwiceWarning(pools, i) == [] && OverlapWarnings(pools[i], pools) == []
  }

  lemma AllEmpty<T>(a: seq<T>, b: seq<T>, c: seq<T>)
    ensures a + b + c == [] <==> a == [] && b == [] && c == []
  {
    assert |a + b + c| == |a| + |b| + |c|;
  }

  function WarningsUpTo(pools: seq<Named>, n: nat): (r: seq<Warning>)
    requires n <= |pools|
    ensures r == [] <==> forall i :: 0 <= i < n ==> QuietAt(pools, i)
  {
    if n == 0 then []
    else
      var before, twice, overlaps := WarningsUpTo(pools, n - 1), TwiceWarning(pools, n - 1),
                                     OverlapWarnings(pools[n - 1], pools);
      AllEmpty(before, twice, overlaps);
      assert QuietAt(pools, n - 1) <==> twice == [] && overlaps == [];
      before + twice + overlaps
  }

  function Warnings(pools: seq<Pool>): seq<Warning> { WarningsUpTo(View(pools), |pools|) }

  method OverlapsWithOthers(p: Named, pools: seq<Named>) returns (warnings: seq<Warning>)
    ensures warnings == OverlapWarnings(p, pools)
  {
    warnings := [];
    for k := 0 to |pools|
      invariant warnings == OverlapWarnings(p, pools[..k])
    {
      assert pools[..k + 1][..k] == pools[..k];
      if pools[k].name != p.name && p.prefix + "-" <= pools[k].prefix {
        warnings := warnings + [OverlapsWith(p.name, pools[k].name)];
      }
    }
    assert pools[..|pools|] == pools;
  }

  method ValidationWarnings(pools: seq<Pool>) returns (warnings: seq<Warning>)
    ensures warnings == Warnings(pools)
  {
    var named := View(pools);
    warnings := [];
    var seen: set<string> := {};
    for n := 0 to |named|
      invariant warnings == WarningsUpTo(named, n) && seen == NamesUpTo(named, n)
    {
      var p := named[n];
      if p.name in seen {
        warnings := warnings + [DefinedTwice(p.name)];
      }
      NamesGrow(named, n);
      seen := seen + {p.name};
      var overlaps := OverlapsWithOthers(p, named);
      warnings := warnings + overlaps;
    }
  }

  lemma NamesGrow(pools: seq<Named>, n: nat)
    requires n < |pools|
    ensures NamesUpTo(pools, n + 1) == NamesUpTo(pools, n) + {pools[n].name}
  {
  }

  lemma {:induction false} NoOverlapWarnings(p: Named, others: seq<Named>)
    ensures OverlapWarnings(p, others) == [] <==> forall q :: q in others ==> !Clashes(p, q)
  {
    if others != [] {
      var rest, q := others[..|others| - 1], others[|others| - 1];
      assert others == rest + [q];
      NoOverlapWarnings(p, rest);
      assert q in others;
    }
  }

  ghost predicate Apart(pools: seq<Named>) {
    && (forall i, j :: 0 <= i < j < |pools| ==> pools[i].name != pools[j].name)
    && (forall i, j :: 0 <= i < |pools| && 0 <= j < |pools| && i != j ==> !Overlaps(pools[i].prefix, pools[j].prefix))
  }

  lemma ApartIsQuietAt(pools: seq<Named>, i: nat)
    requires Apart(pools) && i < |pools|
    ensures QuietAt(pools, i)
  {
    NoOverlapWarnings(pools[i], pools);
    forall q | q in pools ensures !Clashes(pools[i], q) {
      var j :| 0 <= j < |pools| && pools[j] == q;
    }
  }

  lemma QuietIsApart(pools: seq<Named>)
    requires forall i :: 0 <= i < |pools| ==> QuietAt(pools, i)
    ensures Apart(pools)
  {
    forall i, j | 0 <= i < j < |pools| ensures pools[i].name != pools[j].name {
      assert QuietAt(pools, j);
      assert pools[i].name in NamesUpTo(pools, j);
    }
    forall i, j | 0 <= i < |pools| && 0 <= j < |pools| && i != j ensures !Overlaps(pools[i].prefix, pools[j].prefix) {
      assert QuietAt(pools, i) && pools[j] in pools;
      NoOverlapWarnings(pools[i], pools);
      assert !Clashes(pools[i], pools[j]);
    }
  }

  /** No warning is given exactly when names are distinct and no two prefixes overlap. */
  lemma NoWarningsIffApart(pools: seq<Pool>)
    ensures Warnings(pools) == [] <==> Apart(View(pools))
  {
    var named := View(pools);
    if Apart(named) {
      forall i | 0 <= i < |named| ensures QuietAt(named, i) { ApartIsQuietAt(named, i); }
    }
    if Warnings(pools) == [] {
      QuietIsApart(named);
    }
  }

  lemma QuietPoolsDoNotOverlap(pools: seq<Pool>, i: nat, j: nat)
    requires Warnings(pools) == [] && i < |pools| && j < |pools| && i != j
    ensures !Overlaps(Prefix(pools[i]), Prefix(pools[j]))
  {
    NoWarningsIffApart(pools);
    assert View(pools)[i].prefix == Prefix(pools[i]) && View(pools)[j].prefix == Prefix(pools[j]);
  }

  // ------------------------------------------------------------ disjoint ownership

  /** Two patterns agree as far as both go, a dot agreeing with anything. */
  predicate Meet(a: string, b: string) {
    forall i :: 0 <= i < |a| && i < |b| ==> a[i] == '.' || b[i] == '.' || a[i] == b[i]
  }

  /** They agree, but only because a dot stands where they differ. */
  predicate DotsBridge(a: string, b: string) { Meet(a, b) && exists i :: 0 <= i < |a| && i < |b| && a[i] != b[i] }

  /** A name that both patterns fit, where they meet. */
  function Shared(a: string, b: string): string {
    seq(Max(|a|, |b|), i requires 0 <= i < Max(|a|, |b|) => if i < |a| && (a[i] != '.' || i >= |b|) then a[i] else b[i])
  }

  /** Two pools can claim one container, whatever it is called, if and only if their patterns meet. */
  lemma CommonContainerIff(p: Pool, q: Pool)
    requires Readable(p) && Readable(q)
    ensures (exists c :: Claims(p, c) && Claims(q, c)) <==> Meet(Pattern(p), Pattern(q))
  {
    var a, b := Pattern(p), Pattern(q);
    if Meet(a, b) {
      CommonFits(a, b);
      ReadableClaims(p, Shared(a, b));
      ReadableClaims(q, Shared(a, b));
      assert Claims(p, Shared(a, b)) && Claims(q, Shared(a, b));
    }
    if c :| Claims(p, c) && Claims(q, c) {
      ReadableClaims(p, c);
      ReadableClaims(q, c);
      BothFitMeet(a, b, c);
    }
  }

  lemma CommonFits(a: string, b: string)
    requires Meet(a, b)
    ensures Fits(a, Shared(a, b)) && Fits(b, Shared(a, b))
  {
  }

  lemma BothFitMeet(a: string, b: string, c: string)
    requires Fits(a, c) && Fits(b, c)
    ensures Meet(a, b)
  {
  }

  lemma MeetIff(a: string, b: string)
    ensures Meet(a + "-", b + "-") <==> a == b || Overlaps(a, b) || Overlaps(b, a) || DotsBridge(a + "-", b + "-")
  {
    var x, y := a + "-", b + "-";
    if Meet(x, y) && !DotsBridge(x, y) {
      if |a| <= |b| {
        assert x == y[..|x|];
      } else {
        assert y == x[..|y|];
      }
      NestsIff(a, b);
      NestsIff(b, a);
    }
    if Overlaps(a, b) { OverlapMeets(a, b); }
    if Overlaps(b, a) { OverlapMeets(b, a); }
  }

  lemma OverlapMeets(a: string, b: string)
    requires Overlaps(a, b)
    ensures Meet(a + "-", b + "-") && Meet(b + "-", a + "-")
  {
    var x, y := a + "-", b + "-";
    forall i | 0 <= i < |x| && i < |y| ensures x[i] == y[i] { assert y[i] == b[..|x|][i]; }
  }

  /** Without warnings two pools can claim a common container if and only if their names sanitise to one
      prefix, or their patterns agree everywhere but at some dots. */
  lemma QuietPoolsShareIff(pools: seq<Pool>, i: nat, j: nat)
    requires Warnings(pools) == [] && i < |pools| && j < |pools| && i != j
    requires Readable(pools[i]) && Readable(pools[j])
    ensures (exists c :: Claims(pools[i], c) && Claims(pools[j], c))
       <==> Prefix(pools[i]) == Prefix(pools[j]) || DotsBridge(Pattern(pools[i]), Pattern(pools[j]))
  {
    QuietPoolsDoNotOverlap(pools, i, j);
    QuietPoolsDoNotOverlap(pools, j, i);
    CommonContainerIff(pools[i], pools[j]);
    MeetIff(Prefix(pools[i]), Prefix(pools[j]));
  }

  lemma PlainNeverBridge(p: Pool, q: Pool)
    requires Plain(p) && Plain(q)
    ensures !DotsBridge(Pattern(p), Pattern(q))
  {
    var a, b := Prefix(p), Prefix(q);
    forall i | 0 <= i < |a| ensures (a + "-")[i] != '.' { assert a[i] in a; }
    forall i | 0 <= i < |b| ensures (b + "-")[i] != '.' { assert b[i] in b; }
  }

  /** Without warnings, pools named without dots share a container if and only if their prefixes are equal. */
  lemma QuietPlainPoolsShareIff(pools: seq<Pool>, i: nat, j: nat)
    requires Warnings(pools) == [] && i < |pools| && j < |pools| && i != j
    requires Readable(pools[i]) && Readable(pools[j]) && Plain(pools[i]) && Plain(pools[j])
    ensures (exists c :: Claims(pools[i], c) && Claims(pools[j], c)) <==> Prefix(pools[i]) == Prefix(pools[j])
  {
    QuietPoolsShareIff(pools, i, j);
    PlainNeverBridge(pools[i], pools[j]);
  }

  /** The repositories of two personal pools, and the pools themselves, share no container unless the two
      pools could share one anyway. */
  lemma RepositoriesOfPoolsStayApart(pools: seq<Pool>, i: nat, j: nat, repo: string, other: string, container: string)
    requires Warnings(pools) == [] && i < |pools| && j < |pools| && i != j
    requires Readable(pools[i]) && Readable(pools[j])
    requires Readable(ForRepository(pools[i], repo)) && Readable(ForRepository(pools[j], other))
    requires Claims(pools[i], container) || Claims(ForRepository(pools[i], repo), container)
    requires Claims(pools[j], container) || Claims(ForRepository(pools[j], other), container)
    ensures Prefix(pools[i]) == Prefix(pools[j]) || DotsBridge(Pattern(pools[i]), Pattern(pools[j]))
  {
    if !Claims(pools[i], container) { RepositoryClaimsWithinPool(pools[i], repo, container); }
    if !Claims(pools[j], container) { RepositoryClaimsWithinPool(pools[j], other, container); }
    QuietPoolsShareIff(pools, i, j);
  }

  /** Two pools of different names, neither prefix of which overlaps the other, give no warning. */
  lemma TwoQuietPools(p: Pool, q: Pool)
    requires p.name != q.name && !Overlaps(Prefix(p), Prefix(q)) && !Overlaps(Prefix(q), Prefix(p))
    ensures Warnings([p, q]) == []
  {
    NoWarningsIffApart([p, q]);
  }

  /** Two names that differ only in case or separators give no warning and share every container. */
  lemma SamePrefixIsNotWarned(uid: string)
    requires '-' !in uid
    ensures var p, q := Pool("CI x", ""), Pool("ci/x", "");
            Warnings([p, q]) == [] && Claims(p, Container(q, uid)) && Claims(q, Container(p, uid))
  {
    var p, q := Pool("CI x", ""), Pool("ci/x", "");
    assert Safe(p.name) == "ci-x" == Safe(q.name);
    assert Prefix(p) == Prefix(q);
    ClaimsIff(p, q, uid);
    ClaimsIff(q, p, uid);
    assert p.name[0] != q.name[0];
    TwoQuietPools(p, q);
  }

  lemma DottedPrefixes()
    ensures Prefix(Pool("a.b", "")) == "gh-runner-" + "a.b" && Prefix(Pool("axb", "")) == "gh-runner-" + "axb"
  {
    assert Safe("a.b") == "a.b" && Safe("axb") == "axb";
  }

  /** A dot in a pool's name takes another pool's containers, and no warning says so. */
  lemma DotClaimsTooMuch(uid: string)
    requires '-' !in uid
    ensures var p, q := Pool("a.b", ""), Pool("axb", "");
            Warnings([p, q]) == [] && Prefix(p) != Prefix(q) && Claims(p, Container(q, uid))
  {
    var p, q := Pool("a.b", ""), Pool("axb", "");
    DottedPrefixes();
    assert Prefix(p)[10..] == "a.b" && Prefix(q)[10..] == "axb" && Prefix(p)[..10] == Prefix(q)[..10] == "gh-runner-";
    HeadAndTailFit(Prefix(p), Prefix(q), 10);
    ClaimsIff(p, q, uid);
    assert p.name[1] != q.name[1];
    assert "a.b"[1] != "axb"[1];
    TwoQuietPools(p, q);
  }

  lemma ParenthesisTakenOut(head: string, c: char)
    requires c == '(' || c == ')'
    ensures Ungrouped(head + [c]) == Ungrouped(head)
  {
    UngroupedParts(head, [c]);
    assert Ungrouped([c]) == "";
  }

  lemma NameableTakenIn(head: string, tail: string)
    requires Nameable(tail)
    ensures Ungrouped(head + tail) == Ungrouped(head) + tail
  {
    UngroupedParts(head, tail);
    NameableHasNoGroups(tail);
  }

  lemma GroupTakenOut(head: string, inner: string, tail: string)
    requires Nameable(head) && Nameable(inner) && Nameable(tail)
    ensures Ungrouped(head + ['('] + inner + [')'] + tail) == head + inner + tail
  {
    NameableHasNoGroups(head);
    ParenthesisTakenOut(head, '(');
    NameableTakenIn(head + ['('], inner);
    ParenthesisTakenOut(head + ['('] + inner, ')');
    NameableTakenIn(head + ['('] + inner + [')'], tail);
  }

  function HeavyPrefix(): string { "gh-runner-heavy-" }

  lemma HeavyPrefixes()
    ensures Prefix(Pool("heavy (gpu)", "")) == HeavyPrefix() + "(gpu)"
    ensures Prefix(Pool("heavy gpu", "")) == HeavyPrefix() + "gpu"
  {
    assert Safe("heavy (gpu)") == "heavy-(gpu)" && Safe("heavy gpu") == "heavy-gpu";
  }

  /** Parentheses in a pool's name do too: the first pool's own containers cannot be named, and it claims
      the second's. */
  lemma GroupClaimsTooMuch(uid: string)
    ensures var p, q := Pool("heavy (gpu)", ""), Pool("heavy gpu", "");
            Warnings([p, q]) == [] && !Readable(p) && Readable(q) && Claims(p, Container(q, uid))
  {
    var p, q, head := Pool("heavy (gpu)", ""), Pool("heavy gpu", ""), HeavyPrefix();
    HeavyPrefixes();
    GroupTakenOut(head, "gpu", "-");
    assert Pattern(p) == head + ['('] + "gpu" + [')'] + "-" && Pattern(q) == head + "gpu" + "-";
    assert Prefix(p)[|head|] == '(' && Prefix(q)[|head|] == 'g';
    assert p.name[6] != q.name[6];
    TwoQuietPools(p, q);
  }

  lemma OnePoolIsQuiet(p: Pool)
    ensures Warnings([p]) == []
  {
    NoWarningsIffApart([p]);
  }

  lemma ApiFitsApiDocs()
    ensures Fits(Safe("api") + "-", Safe("api-docs") + "-")
  {
    assert Safe("api") == "api" && Safe("api-docs") == "api-docs";
  }

  /** Two repositories of one account do as well: "api" takes the runners of "api-docs" for its own. */
  lemma SiblingClaimsTooMuch(p: Pool, uid: string)
    requires Readable(ForRepository(p, "api")) && '-' !in uid
    ensures Warnings([p]) == []
    ensures Claims(ForRepository(p, "api"), Container(ForRepository(p, "api-docs"), uid))
  {
    OnePoolIsQuiet(p);
    ApiFitsApiDocs();
    SiblingsClaimIff(p, "api", "api-docs", uid);
  }

  lemma HeadAndTailFit(a: string, b: string, n: nat)
    requires n <= |a| == |b| && a[..n] == b[..n] && Fits(a[n..], b[n..])
    ensures Fits(a + "-", b + "-")
  {
    forall i | 0 <= i < |a| ensures a[i] == '.' || a[i] == b[i] {
      if i < n {
        assert a[i] == a[..n][i] == b[..n][i];
      } else {
        assert a[i] == a[n..][i - n] && b[i] == b[n..][i - n];
      }
    }
  }
}
