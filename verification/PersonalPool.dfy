/** Sharing a personal account's spawn capacity over its repositories. */
module PersonalPool {
  import opened Common

  /** What one repository's inspection contributes to the decision. */
  datatype Inspection = Inspection(repo: string, running: nat, busy: nat, queued: nat)

  function Needed(i: Inspection): nat { Max(0, i.busy + i.queued - i.running) }

  function BusiestFirst(): (Inspection, Inspection) -> bool {
    (a: Inspection, b: Inspection) => a.queued > b.queued || (a.queued == b.queued && Less(a.repo, b.repo))
  }

  ghost predicate DistinctRepos(items: seq<Inspection>) {
    forall i, j :: 0 <= i < j < |items| ==> items[i].repo != items[j].repo
  }

  function Needs(items: seq<Inspection>): (r: seq<int>)
    ensures |r| == |items| && forall i :: 0 <= i < |items| ==> r[i] == Needed(items[i])
  {
    seq(|items|, i requires 0 <= i < |items| => Needed(items[i]))
  }

  function At(allocations: map<string, nat>, repo: string): nat { if repo in allocations then allocations[repo] else 0 }

  /** The allocation in the order of `items`. */
  function Spawns(items: seq<Inspection>, allocations: map<string, nat>): (r: seq<int>)
    ensures |r| == |items| && forall i :: 0 <= i < |items| ==> r[i] == At(allocations, items[i].repo)
  {
    seq(|items|, i requires 0 <= i < |items| => At(allocations, items[i].repo))
  }

  /** Water-filling: everyone is filled to `level` or to its need, and the first `extra` in
      priority order one further. */
  ghost predicate WaterFilled(ordered: seq<Inspection>, spawns: seq<int>, level: nat, extra: nat) {
    && |spawns| == |ordered| && extra <= |ordered|
    && forall i :: 0 <= i < |ordered| ==>
         spawns[i] == Min(Needed(ordered[i]), if i < extra then level + 1 else level)
  }

  lemma BusiestFirstIsOrder()
    ensures StrictOrder(BusiestFirst())
  {
    var before := BusiestFirst();
    forall x: Inspection, y: Inspection ensures before(x, y) ==> !before(y, x) { LessTotal(x.repo, y.repo); }
    forall x: Inspection, y: Inspection, z: Inspection ensures before(x, y) && before(y, z) ==> before(x, z) {
      if x.queued == y.queued == z.queued && before(x, y) && before(y, z) {
        LessTransitive(x.repo, y.repo, z.repo);
      }
    }
    forall x: Inspection, y: Inspection, z: Inspection ensures before(x, z) ==> before(x, y) || before(y, z) {
      LessTotal(x.repo, y.repo);
      LessTotal(y.repo, z.repo);
      if x.queued == y.queued == z.queued && before(x, z) && before(z, y) { LessTransitive(x.repo, z.repo, y.repo); }
    }
  }

  lemma NeedsOfCons(x: Inspection, ys: seq<Inspection>)
    ensures Sum(Needs([x] + ys)) == Needed(x) + Sum(Needs(ys))
  {
    assert Needs([x] + ys) == [Needed(x)] + Needs(ys);
  }

  lemma {:induction false} InsertSum(x: Inspection, ys: seq<Inspection>)
    ensures Sum(Needs(Insert(BusiestFirst(), x, ys))) == Needed(x) + Sum(Needs(ys))
  {
    if ys != [] && !BusiestFirst()(x, ys[0]) {
      InsertSum(x, ys[1..]);
      NeedsOfCons(ys[0], Insert(BusiestFirst(), x, ys[1..]));
      NeedsOfCons(ys[0], ys[1..]);
      assert ys == [ys[0]] + ys[1..];
    } else {
      NeedsOfCons(x, ys);
    }
  }

  lemma {:induction false} SortedSum(items: seq<Inspection>)
    ensures Sum(Needs(Sorted(BusiestFirst(), items))) == Sum(Needs(items))
  {
    if items != [] {
      var last := |items| - 1;
      SortedSum(items[..last]);
      InsertSum(items[last], Sorted(BusiestFirst(), items[..last]));
      assert Needs(items) == Needs(items[..last]) + [Needed(items[last])];
      SumAppend(Needs(items[..last]), [Needed(items[last])]);
    }
  }

  lemma OrderedKeeps(items: seq<Inspection>)
    requires DistinctRepos(items)
    ensures DistinctRepos(Sorted(BusiestFirst(), items))
    ensures forall x :: x in Sorted(BusiestFirst(), items) <==> x in items
  {
    SortedDistinct(BusiestFirst(), (i: Inspection) => i.repo, items);
  }

  lemma NobodyWants(ordered: seq<Inspection>, spawns: seq<int>, level: nat, extra: nat)
    requires WaterFilled(ordered, spawns, level, extra)
    requires Satisfied(ordered, |ordered|, level)
    ensures Sum(spawns) == Sum(Needs(ordered))
  {
    assert spawns == Needs(ordered);
  }

  lemma FilledBelowNeed(ordered: seq<Inspection>, spawns: seq<int>, level: nat, extra: nat)
    requires WaterFilled(ordered, spawns, level, extra)
    ensures Sum(spawns) <= Sum(Needs(ordered))
  {
    SumMonotone(spawns, Needs(ordered));
  }

  /** State of the round-robin loop: filled to `level`, the first `extra` one further. */
  ghost predicate Filling(ordered: seq<Inspection>, allocations: map<string, nat>, level: nat, extra: nat, total: int) {
    && WaterFilled(ordered, Spawns(ordered, allocations), level, extra)
    && Sum(Spawns(ordered, allocations)) == total
  }

  lemma FillingStarts(items: seq<Inspection>, allocations: map<string, nat>)
    requires forall repo :: At(allocations, repo) == 0
    ensures Filling(items, allocations, 0, 0, 0)
  {
    Zeros(Spawns(items, allocations));
  }

  lemma {:induction false} Zeros(xs: seq<int>)
    requires forall i :: 0 <= i < |xs| ==> xs[i] == 0
    ensures Sum(xs) == 0
  {
    if xs != [] { Zeros(xs[1..]); }
  }

  lemma WaterAdvances(ordered: seq<Inspection>, spawns: seq<int>, level: nat, j: nat)
    requires j < |ordered| && WaterFilled(ordered, spawns, level, j) && spawns[j] < Needed(ordered[j])
    ensures WaterFilled(ordered, spawns[j := spawns[j] + 1], level, j + 1)
    ensures Sum(spawns[j := spawns[j] + 1]) == Sum(spawns) + 1
  {
    SumUpdate(spawns, j, spawns[j] + 1);
  }

  lemma SpawnsUpdate(ordered: seq<Inspection>, allocations: map<string, nat>, j: nat, n: nat)
    requires DistinctRepos(ordered) && j < |ordered|
    ensures Spawns(ordered, allocations[ordered[j].repo := n]) == Spawns(ordered, allocations)[j := n]
  {
  }

  /** One more spawn for the repository whose turn it is. */
  lemma FillingAdvances(ordered: seq<Inspection>, allocations: map<string, nat>, level: nat, j: nat, total: int)
    requires DistinctRepos(ordered) && j < |ordered| && Filling(ordered, allocations, level, j, total)
    requires At(allocations, ordered[j].repo) < Needed(ordered[j])
    ensures Filling(ordered, allocations[ordered[j].repo := At(allocations, ordered[j].repo) + 1], level, j + 1,
                    total + 1)
  {
    WaterAdvances(ordered, Spawns(ordered, allocations), level, j);
    SpawnsUpdate(ordered, allocations, j, At(allocations, ordered[j].repo) + 1);
  }

  ghost predicate Satisfied(ordered: seq<Inspection>, upTo: nat, level: nat) {
    forall i :: 0 <= i < upTo && i < |ordered| ==> Needed(ordered[i]) <= level
  }

  /** Passing over a repository that has what it needs. */
  lemma FillingSkips(ordered: seq<Inspection>, allocations: map<string, nat>, level: nat, j: nat, total: int)
    requires j < |ordered| && Filling(ordered, allocations, level, j, total)
    requires At(allocations, ordered[j].repo) >= Needed(ordered[j])
    ensures Filling(ordered, allocations, level, j + 1, total)
    ensures Satisfied(ordered, j, level) ==> Satisfied(ordered, j + 1, level)
  {
    assert Spawns(ordered, allocations)[j] == Min(Needed(ordered[j]), level);
  }

  /** One pass over the repositories, giving each that still needs one a spawn. */
  method Round(ordered: seq<Inspection>, before: map<string, nat>, capacity0: nat, ghost level: nat, ghost total: nat)
    returns (allocations: map<string, nat>, capacity: nat, ghost extra: nat)
    requires DistinctRepos(ordered) && capacity0 > 0 && Filling(ordered, before, level, 0, total)
    ensures capacity <= capacity0
    ensures Filling(ordered, allocations, level, extra, total + capacity0 - capacity)
    ensures capacity > 0 ==> extra == |ordered|
    ensures capacity == capacity0 ==> Satisfied(ordered, |ordered|, level)
  {
    allocations, capacity := before, capacity0;
    var j := 0;
    while j < |ordered|
      invariant 0 <= j <= |ordered| && 0 < capacity <= capacity0
      invariant Filling(ordered, allocations, level, j, total + capacity0 - capacity)
      invariant capacity == capacity0 ==> Satisfied(ordered, j, level)
    {
      var repo, needed := ordered[j].repo, Needed(ordered[j]);
      if At(allocations, repo) >= needed {
        FillingSkips(ordered, allocations, level, j, total + capacity0 - capacity);
        j := j + 1;
        continue;
      }
      FillingAdvances(ordered, allocations, level, j, total + capacity0 - capacity);
      allocations := allocations[repo := At(allocations, repo) + 1];
      capacity := capacity - 1;
      j := j + 1;
      if capacity == 0 {
        break;
      }
    }
    extra := j;
  }

  /** Rounds until the capacity is used up or nobody needs more. */
  method FillUp(ordered: seq<Inspection>, before: map<string, nat>, granted: int)
    returns (allocations: map<string, nat>)
    requires DistinctRepos(ordered) && Filling(ordered, before, 0, 0, 0)
    ensures exists level, extra :: WaterFilled(ordered, Spawns(ordered, allocations), level, extra)
    ensures Sum(Spawns(ordered, allocations)) == Min(Max(0, granted), Sum(Needs(ordered)))
  {
    var capacity := granted;
    allocations := before;
    ghost var level, extra := 0, 0;
    while capacity > 0
      invariant capacity > 0 ==> extra == 0
      invariant Filling(ordered, allocations, level, extra, Max(0, granted) - Max(0, capacity))
      invariant granted >= 0 ==> 0 <= capacity <= granted
      decreases capacity
    {
      var left;
      ghost var reached;
      allocations, left, reached := Round(ordered, allocations, capacity, level, granted - capacity);
      var allocatedInRound := left < capacity;
      capacity, extra := left, reached;
      if !allocatedInRound {
        NobodyWants(ordered, Spawns(ordered, allocations), level, extra);
        break;
      }
      if capacity > 0 {
        level, extra := level + 1, 0;
      }
    }
    FilledBelowNeed(ordered, Spawns(ordered, allocations), level, extra);
  }

  /** The allocation loop of `_tick_personal`. */
  method Allocate(items: seq<Inspection>, granted: int)
    returns (ordered: seq<Inspection>, allocations: map<string, nat>)
    requires DistinctRepos(items)
    ensures ordered == Sorted(BusiestFirst(), items)
    ensures InOrder(BusiestFirst(), ordered) && multiset(ordered) == multiset(items)
    ensures exists level, extra :: WaterFilled(ordered, Spawns(ordered, allocations), level, extra)
    ensures Sum(Spawns(ordered, allocations)) == Min(Max(0, granted), Sum(Needs(items)))
    ensures forall i, j :: 0 <= i < j < |ordered| ==>
              ordered[i].queued > ordered[j].queued
              || (ordered[i].queued == ordered[j].queued && !Less(ordered[j].repo, ordered[i].repo))
    ensures forall x :: x in items ==> x.running + At(allocations, x.repo) <= Max(x.running, x.busy + x.queued)
    ensures Sum(Spawns(ordered, allocations)) < granted ==>
              forall x :: x in items ==> x.running + At(allocations, x.repo) >= x.busy + x.queued
  {
    ordered := Sorted(BusiestFirst(), items);
    BusiestFirstIsOrder();
    SortedKeeps(BusiestFirst(), items);
    OrderedKeeps(items);
    SortedSum(items);
    allocations := map x | x in items :: x.repo := 0;
    FillingStarts(ordered, allocations);
    allocations := FillUp(ordered, allocations, granted);
    AllocationFits(items, ordered, allocations);
    if Sum(Spawns(ordered, allocations)) < granted { AllocationSuffices(items, ordered, allocations); }
  }

  /** No repository gets more runners than it has jobs for ... */
  lemma AllocationFits(items: seq<Inspection>, ordered: seq<Inspection>, allocations: map<string, nat>)
    requires forall x :: x in ordered <==> x in items
    requires exists level, extra :: WaterFilled(ordered, Spawns(ordered, allocations), level, extra)
    ensures forall x :: x in items ==> x.running + At(allocations, x.repo) <= Max(x.running, x.busy + x.queued)
  {
    var level, extra :| WaterFilled(ordered, Spawns(ordered, allocations), level, extra);
    forall x | x in items ensures x.running + At(allocations, x.repo) <= Max(x.running, x.busy + x.queued) {
      var i :| 0 <= i < |ordered| && ordered[i] == x;
      assert Spawns(ordered, allocations)[i] <= Needed(x);
    }
  }

  /** ... and none fewer when the grant was not used up. */
  lemma AllocationSuffices(items: seq<Inspection>, ordered: seq<Inspection>, allocations: map<string, nat>)
    requires forall x :: x in ordered <==> x in items
    requires exists level, extra :: WaterFilled(ordered, Spawns(ordered, allocations), level, extra)
    requires Sum(Spawns(ordered, allocations)) == Sum(Needs(ordered))
    ensures forall x :: x in items ==> x.running + At(allocations, x.repo) >= x.busy + x.queued
  {
    var level, extra :| WaterFilled(ordered, Spawns(ordered, allocations), level, extra);
    SumMonotone(Spawns(ordered, allocations), Needs(ordered));
    forall x | x in items ensures x.running + At(allocations, x.repo) >= x.busy + x.queued {
      var i :| 0 <= i < |ordered| && ordered[i] == x;
      assert Spawns(ordered, allocations)[i] == Needed(x);
    }
  }

  // ------------------------------------------------------------ what the allocation means

  lemma WaterLevelDecides(ordered: seq<Inspection>, a: seq<int>, b: seq<int>, l: nat, x: nat, m: nat, y: nat)
    requires WaterFilled(ordered, a, l, x) && WaterFilled(ordered, b, m, y)
    requires l < m || (l == m && x <= y)
    requires Sum(a) == Sum(b)
    ensures a == b
  {
    SumMonotone(a, b);
  }

  /** Water-filling a given total is possible in only one way, so it determines the allocation. */
  lemma WaterFillingIsUnique(ordered: seq<Inspection>, a: seq<int>, b: seq<int>, l: nat, x: nat, m: nat, y: nat)
    requires WaterFilled(ordered, a, l, x) && WaterFilled(ordered, b, m, y) && Sum(a) == Sum(b)
    ensures a == b
  {
    if l < m || (l == m && x <= y) {
      WaterLevelDecides(ordered, a, b, l, x, m, y);
    } else {
      WaterLevelDecides(ordered, b, a, m, y, l, x);
    }
  }

  /** Max-min fairness: any other allocation of as many spawns that gives some repository more takes
      one from a repository that had at most one more than it. */
  lemma WaterFillingIsFair(ordered: seq<Inspection>, a: seq<int>, b: seq<int>, l: nat, x: nat, i: nat) returns (j: nat)
    requires WaterFilled(ordered, a, l, x) && |b| == |a| && Sum(a) == Sum(b)
    requires forall k :: 0 <= k < |b| ==> 0 <= b[k] <= Needed(ordered[k])
    requires i < |a| && b[i] > a[i]
    ensures j < |a| && b[j] < a[j] <= a[i] + 1
    ensures a[j] == a[i] + 1 ==> j < i
  {
    j := SomeLarger(a, b, i);
  }
}
