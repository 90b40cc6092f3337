/** The order in which one tick's deregistrations and spawns are handed to the worker pool. */
module RunnerOperations {
  datatype Operation = Deregister(runner: string) | Spawn(pool: string)

  /** One spawn job per allocated runner, pool by pool. */
  function SpawnJobs(allocations: seq<(string, nat)>): seq<string> {
    if allocations == [] then []
    else seq(allocations[0].1, i => allocations[0].0) + SpawnJobs(allocations[1..])
  }

  function SpawnCount(allocations: seq<(string, nat)>): nat {
    if allocations == [] then 0 else allocations[0].1 + SpawnCount(allocations[1..])
  }

  /** Both lists popped from their ends, a deregistration and a spawn in turn. */
  function Interleaved(deregistrations: seq<string>, spawns: seq<string>): seq<Operation>
    decreases |deregistrations| + |spawns|
  {
    if deregistrations == [] && spawns == [] then []
    else Turn(deregistrations, spawns) + Interleaved(ButLast(deregistrations), ButLast(spawns))
  }

  function Turn(deregistrations: seq<string>, spawns: seq<string>): seq<Operation> {
    LastAs(deregistrations, true) + LastAs(spawns, false)
  }

  function LastAs(jobs: seq<string>, deregister: bool): seq<Operation> {
    if jobs == [] then [] else [if deregister then Deregister(jobs[|jobs| - 1]) else Spawn(jobs[|jobs| - 1])]
  }

  function ButLast(jobs: seq<string>): seq<string> { if jobs == [] then [] else jobs[..|jobs| - 1] }

  function SpawnsIn(log: seq<Operation>): (n: nat)
    ensures n <= |log|
  {
    if log == [] then 0 else (if log[0].Spawn? then 1 else 0) + SpawnsIn(log[1..])
  }

  function Tagged(jobs: seq<string>, deregister: bool): (r: seq<Operation>)
    ensures |r| == |jobs|
  {
    if jobs == [] then [] else Tagged(jobs[..|jobs| - 1], deregister) + LastAs(jobs, deregister)
  }

  lemma {:induction false} SpawnJobsCount(allocations: seq<(string, nat)>)
    ensures |SpawnJobs(allocations)| == SpawnCount(allocations)
  {
    if allocations != [] { SpawnJobsCount(allocations[1..]); }
  }

  lemma {:induction false} SpawnsInAppend(a: seq<Operation>, b: seq<Operation>)
    ensures SpawnsIn(a + b) == SpawnsIn(a) + SpawnsIn(b)
  {
    if a == [] {
      assert a + b == b;
    } else {
      assert (a + b)[1..] == a[1..] + b;
      SpawnsInAppend(a[1..], b);
    }
  }

  lemma TaggedLast(jobs: seq<string>, deregister: bool)
    ensures multiset(Tagged(jobs, deregister))
         == multiset(LastAs(jobs, deregister)) + multiset(Tagged(ButLast(jobs), deregister))
  {
  }

  lemma MultisetAppend(a: seq<Operation>, b: seq<Operation>)
    ensures multiset(a + b) == multiset(a) + multiset(b)
  {
  }

  lemma Regroup(a: multiset<Operation>, b: multiset<Operation>, c: multiset<Operation>, d: multiset<Operation>)
    ensures (a + b) + (c + d) == (a + c) + (b + d)
  {
  }

  /** Every deregistration and every spawn is submitted exactly once. */
  lemma {:induction false} InterleavedExactlyOnce(deregistrations: seq<string>, spawns: seq<string>)
    ensures multiset(Interleaved(deregistrations, spawns))
         == multiset(Tagged(deregistrations, true)) + multiset(Tagged(spawns, false))
    decreases |deregistrations| + |spawns|
  {
    if deregistrations != [] || spawns != [] {
      var ds, ss := ButLast(deregistrations), ButLast(spawns);
      InterleavedExactlyOnce(ds, ss);
      MultisetAppend(LastAs(deregistrations, true), LastAs(spawns, false));
      MultisetAppend(Turn(deregistrations, spawns), Interleaved(ds, ss));
      TaggedLast(deregistrations, true);
      TaggedLast(spawns, false);
      Regroup(multiset(LastAs(deregistrations, true)), multiset(LastAs(spawns, false)),
              multiset(Tagged(ds, true)), multiset(Tagged(ss, false)));
    }
  }

  lemma SpawnsInTurn(deregistrations: seq<string>, spawns: seq<string>)
    ensures SpawnsIn(Turn(deregistrations, spawns)) == if spawns == [] then 0 else 1
  {
    SpawnsInAppend(LastAs(deregistrations, true), LastAs(spawns, false));
  }

  lemma {:induction false} InterleavedSpawnCount(deregistrations: seq<string>, spawns: seq<string>)
    ensures SpawnsIn(Interleaved(deregistrations, spawns)) == |spawns|
    decreases |deregistrations| + |spawns|
  {
    if deregistrations != [] || spawns != [] {
      InterleavedSpawnCount(ButLast(deregistrations), ButLast(spawns));
      SpawnsInTurn(deregistrations, spawns);
      SpawnsInAppend(Turn(deregistrations, spawns), Interleaved(ButLast(deregistrations), ButLast(spawns)));
    }
  }

  function As(name: string, deregister: bool): Operation { if deregister then Deregister(name) else Spawn(name) }

  lemma LastCounts(jobs: seq<string>, deregister: bool, name: string)
    requires jobs != []
    ensures multiset(LastAs(jobs, deregister))[As(name, deregister)] == if jobs[|jobs| - 1] == name then 1 else 0
    ensures multiset(LastAs(jobs, deregister))[As(name, !deregister)] == 0
  {
    assert LastAs(jobs, deregister) == [As(jobs[|jobs| - 1], deregister)];
  }

  lemma CountAppend<T>(xs: seq<T>, last: T, x: T)
    ensures multiset(xs + [last])[x] == multiset(xs)[x] + if x == last then 1 else 0
  {
  }

  lemma {:induction false} TaggedCounts(jobs: seq<string>, deregister: bool, name: string)
    ensures multiset(Tagged(jobs, deregister))[As(name, deregister)] == multiset(jobs)[name]
    ensures multiset(Tagged(jobs, deregister))[As(name, !deregister)] == 0
  {
    if jobs != [] {
      var rest, last := jobs[..|jobs| - 1], jobs[|jobs| - 1];
      TaggedCounts(rest, deregister, name);
      assert jobs == rest + [last];
      CountAppend(rest, last, name);
      LastCounts(jobs, deregister, name);
      MultisetAppend(Tagged(rest, deregister), LastAs(jobs, deregister));
    }
  }

  /** Each runner is deregistered, and each pool spawned for, as often as the lists say. */
  lemma InterleavedCounts(deregistrations: seq<string>, spawns: seq<string>, name: string)
    ensures multiset(Interleaved(deregistrations, spawns))[Spawn(name)] == multiset(spawns)[name]
    ensures multiset(Interleaved(deregistrations, spawns))[Deregister(name)] == multiset(deregistrations)[name]
  {
    InterleavedExactlyOnce(deregistrations, spawns);
    TaggedCounts(deregistrations, true, name);
    TaggedCounts(spawns, false, name);
  }

  lemma {:induction false} Copies(name: string, n: nat, other: string)
    ensures multiset(seq(n, i => name))[other] == if other == name then n else 0
  {
    var all := seq(n, i => name);
    if n == 0 {
      assert all == [];
    } else {
      Copies(name, n - 1, other);
      assert all == seq(n - 1, i => name) + [name];
    }
  }

  lemma {:induction false} NoSpawnsFor(allocations: seq<(string, nat)>, name: string)
    requires forall a :: a in allocations ==> a.0 != name
    ensures multiset(SpawnJobs(allocations))[name] == 0
  {
    if allocations != [] {
      NoSpawnsFor(allocations[1..], name);
      Copies(allocations[0].0, allocations[0].1, name);
    }
  }

  /** A pool listed once gets as many spawn jobs as it was allocated. */
  lemma {:induction false} SpawnsForEach(allocations: seq<(string, nat)>, k: nat)
    requires k < |allocations| && forall i, j :: 0 <= i < j < |allocations| ==> allocations[i].0 != allocations[j].0
    ensures multiset(SpawnJobs(allocations))[allocations[k].0] == allocations[k].1
  {
    Copies(allocations[0].0, allocations[0].1, allocations[k].0);
    if k == 0 {
      NoSpawnsFor(allocations[1..], allocations[0].0);
    } else {
      SpawnsForEach(allocations[1..], k - 1);
    }
  }

  /** While both lists last, deregistrations and spawns alternate, so neither kind waits for the other. */
  lemma {:induction false} InterleavedAlternates(deregistrations: seq<string>, spawns: seq<string>, i: nat)
    requires i < |deregistrations| && i < |spawns|
    ensures 2 * i + 1 < |Interleaved(deregistrations, spawns)|
    ensures Interleaved(deregistrations, spawns)[2 * i] == Deregister(deregistrations[|deregistrations| - 1 - i])
    ensures Interleaved(deregistrations, spawns)[2 * i + 1] == Spawn(spawns[|spawns| - 1 - i])
    decreases i
  {
    var turn := Turn(deregistrations, spawns);
    assert |turn| == 2;
    if i > 0 {
      var ds, ss := ButLast(deregistrations), ButLast(spawns);
      InterleavedAlternates(ds, ss, i - 1);
      assert Interleaved(deregistrations, spawns) == turn + Interleaved(ds, ss);
    }
  }

  /** Adding a turn to the log, or as much of it as the executor still accepts. */
  lemma LogTurn(all: seq<Operation>, log: seq<Operation>, turn: seq<Operation>, rest: seq<Operation>, accepts: nat)
    requires all == log + (turn + rest) && |log| <= accepts
    ensures all == (log + turn) + rest
    ensures |log| + |turn| > accepts ==> accepts < |all| && log + turn[..accepts - |log|] == all[..accepts]
  {
  }

  /** A submission cut short has submitted at most the spawns of the whole. */
  lemma PrefixSpawns(all: seq<Operation>, n: nat)
    requires n <= |all|
    ensures SpawnsIn(all[..n]) <= SpawnsIn(all)
  {
    assert all == all[..n] + all[n..];
    SpawnsInAppend(all[..n], all[n..]);
  }

  lemma {:induction false} InterleavedLength(deregistrations: seq<string>, spawns: seq<string>)
    ensures |Interleaved(deregistrations, spawns)| == |deregistrations| + |spawns|
    decreases |deregistrations| + |spawns|
  {
    if deregistrations != [] || spawns != [] { InterleavedLength(ButLast(deregistrations), ButLast(spawns)); }
  }

  /** The first spawn is the first operation submitted, or the second when there is a deregistration. */
  lemma SpawnSubmittedIff(deregistrations: seq<string>, spawns: seq<string>, n: nat)
    requires n <= |Interleaved(deregistrations, spawns)|
    ensures SpawnsIn(Interleaved(deregistrations, spawns)[..n]) > 0
       <==> spawns != [] && n >= if deregistrations == [] then 1 else 2
  {
    var all, first := Interleaved(deregistrations, spawns), if deregistrations == [] then 1 else 2;
    InterleavedSpawnCount(deregistrations, spawns);
    PrefixSpawns(all, n);
    if spawns != [] {
      var turn := Turn(deregistrations, spawns);
      SpawnsInTurn(deregistrations, spawns);
      assert |turn| == first && all[..first] == turn;
      if n >= first {
        PrefixSpawns(all[..n], first);
        assert all[..n][..first] == turn;
      } else if n == 1 {
        assert all[..1] == [turn[0]] && turn[0].Deregister?;
        assert [turn[0]][1..] == [];
      }
    }
  }
}
