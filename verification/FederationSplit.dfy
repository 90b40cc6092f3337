/** The deterministic queue split every federated host computes for itself. */
module FederationSplit {
  import opened Common

  /** What a host brings to the division of one pool's jobs. */
  datatype Slot = Slot(name: string, freeCores: nat, capacity: nat)

  type Position = k: nat | k > 0 witness 1

  /** The k-th job a host may take; the host's weight comes with it. */
  datatype Item = Item(name: string, weight: nat, k: Position)

  function Nth(s: Slot, k: Position): Item { Item(s.name, s.freeCores + 1, k) }

  function Quotient(i: Item): real { i.weight as real / i.k as real }

  /** The declared priority: higher quotient first, ties by name. */
  predicate Before(a: Item, b: Item) {
    Quotient(a) > Quotient(b) || (Quotient(a) == Quotient(b) && Less(a.name, b.name))
  }

  ghost predicate DistinctNames(slots: seq<Slot>) {
    forall i, j :: 0 <= i < j < |slots| ==> slots[i].name != slots[j].name
  }

  ghost function Items(slots: set<Slot>): set<Item> {
    set s, k | s in slots && 1 <= k <= s.capacity :: Nth(s, k)
  }

  ghost function Ahead(slots: set<Slot>, it: Item): set<Item> {
    set a | a in Items(slots) && Before(a, it)
  }

  ghost function Rank(slots: set<Slot>, it: Item): nat { |Ahead(slots, it)| }

  ghost function SlotSet(slots: seq<Slot>): set<Slot> { set s | s in slots }

  ghost predicate Functional(slots: set<Slot>) {
    forall s, t :: s in slots && t in slots && s.name == t.name ==> s == t
  }

  /** How many of a host's items are among the first `queued` of all items. */
  ghost function Share(queued: int, slots: set<Slot>, s: Slot): nat {
    |set k: nat | 1 <= k <= s.capacity && Rank(slots, Nth(s, k)) < queued|
  }

  /** The declarative specification of `split`. */
  ghost function SplitSpec(queued: int, slots: seq<Slot>): map<string, nat>
    requires DistinctNames(slots)
  {
    map s | s in SlotSet(slots) :: s.name := Share(queued, SlotSet(slots), s)
  }

  // ------------------------------------------------------------ the order on items

  lemma ScaleFalls(x: real, y: real, j: real, k: real)
    requires 0.0 < j < k && x * j == y * k > 0.0
    ensures x > y
  {
  }

  lemma QuotientFalls(w: nat, j: nat, k: nat)
    requires 0 < w && 0 < j < k
    ensures w as real / j as real > w as real / k as real
  {
    ScaleFalls(w as real / j as real, w as real / k as real, j as real, k as real);
  }

  lemma NthFalls(s: Slot, j: Position, k: Position)
    requires j < k
    ensures Before(Nth(s, j), Nth(s, k))
  {
    QuotientFalls(s.freeCores + 1, j, k);
  }

  lemma BeforeTransitive(a: Item, b: Item, c: Item)
    requires Before(a, b) && Before(b, c)
    ensures Before(a, c)
  {
    if Quotient(a) == Quotient(b) == Quotient(c) {
      LessTransitive(a.name, b.name, c.name);
    }
  }

  lemma BeforeTotal(slots: set<Slot>, a: Item, b: Item)
    requires Functional(slots) && a in Items(slots) && b in Items(slots)
    ensures a == b || Before(a, b) || Before(b, a)
    ensures !(Before(a, b) && Before(b, a)) && !Before(a, a)
  {
    LessTotal(a.name, b.name);
    LessTotal(a.name, a.name);
    if a.name == b.name && a.k != b.k {
      QuotientFalls(a.weight, Min(a.k, b.k), Max(a.k, b.k));
    }
  }

  lemma RankRises(slots: set<Slot>, a: Item, b: Item)
    requires Functional(slots) && a in Items(slots)
    requires Before(a, b)
    ensures Rank(slots, a) < Rank(slots, b)
  {
    BeforeTotal(slots, a, a);
    forall x | x in Ahead(slots, a) ensures x in Ahead(slots, b) { BeforeTransitive(x, a, b); }
    assert Ahead(slots, a) + {a} <= Ahead(slots, b);
    Subset(Ahead(slots, a) + {a}, Ahead(slots, b));
  }

  lemma Subset<T>(a: set<T>, b: set<T>)
    requires a <= b
    ensures |a| <= |b|
  {
    assert |b - a| == |b| - |a * b|;
    assert a * b == a;
  }

  lemma {:induction false} UpTo(n: nat) returns (r: set<nat>)
    ensures forall k: nat :: k in r <==> 1 <= k <= n
    ensures |r| == n
  {
    r := {};
    if n > 0 {
      var smaller := UpTo(n - 1);
      r := smaller + {n};
    }
  }

  /** A host's items rank in order, so its share is the length of an initial run of them. */
  lemma ShareIsRun(queued: int, slots: set<Slot>, s: Slot, k: nat)
    requires Functional(slots) && s in slots && 1 <= k <= s.capacity
    ensures Share(queued, slots, s) <= s.capacity
    ensures k <= Share(queued, slots, s) <==> Rank(slots, Nth(s, k)) < queued
  {
    var taken := set j: nat | 1 <= j <= s.capacity && Rank(slots, Nth(s, j)) < queued;
    forall i: nat, j: nat | 1 <= i < j && j in taken ensures i in taken {
      NthFalls(s, i, j);
      assert Nth(s, i) in Items(slots);
      RankRises(slots, Nth(s, i), Nth(s, j));
    }
    var all := UpTo(s.capacity);
    Subset(taken, all);
    if k in taken {
      var low := UpTo(k);
      Subset(low, taken);
    } else {
      var low := UpTo(k - 1);
      Subset(taken, low);
    }
  }

  // ------------------------------------------------------------ the algorithm

  function FilterOpen(slots: seq<Slot>, shares: map<string, nat>): (open: seq<Slot>)
    requires forall s :: s in slots ==> s.name in shares
    ensures forall s :: s in open <==> s in slots && shares[s.name] < s.capacity
  {
    if slots == [] then []
    else if shares[slots[0].name] < slots[0].capacity then
      [slots[0]] + FilterOpen(slots[1..], shares)
    else FilterOpen(slots[1..], shares)
  }

  ghost predicate NameOrdered(slots: seq<Slot>) {
    forall i, j :: 0 <= i < j < |slots| ==> Less(slots[i].name, slots[j].name)
  }

  lemma {:induction false} FilterKeepsOrder(slots: seq<Slot>, shares: map<string, nat>)
    requires forall s :: s in slots ==> s.name in shares
    requires NameOrdered(slots)
    ensures NameOrdered(FilterOpen(slots, shares))
  {
    if slots != [] {
      FilterKeepsOrder(slots[1..], shares);
    }
  }

  function NameFirst(): (Slot, Slot) -> bool { (a: Slot, b: Slot) => Less(a.name, b.name) }

  lemma NameFirstIsOrder()
    ensures StrictOrder(NameFirst())
  {
    var before := NameFirst();
    forall x: Slot, y: Slot ensures before(x, y) ==> !before(y, x) { LessTotal(x.name, y.name); }
    forall x: Slot, y: Slot, z: Slot ensures before(x, y) && before(y, z) ==> before(x, z) {
      if before(x, y) && before(y, z) { LessTransitive(x.name, y.name, z.name); }
    }
    forall x: Slot, y: Slot, z: Slot ensures before(x, z) ==> before(x, y) || before(y, z) {
      LessTotal(x.name, y.name);
      LessTotal(y.name, z.name);
      if before(x, z) && before(z, y) { LessTransitive(x.name, z.name, y.name); }
    }
  }

  lemma SortByName(slots: seq<Slot>)
    requires DistinctNames(slots)
    ensures NameOrdered(Sorted(NameFirst(), slots))
    ensures SlotSet(Sorted(NameFirst(), slots)) == SlotSet(slots)
  {
    NameFirstIsOrder();
    SortedKeeps(NameFirst(), slots);
    SortedDistinct(NameFirst(), (s: Slot) => s.name, slots);
    var out := Sorted(NameFirst(), slots);
    forall i, j | 0 <= i < j < |out| ensures Less(out[i].name, out[j].name) {
      LessTotal(out[i].name, out[j].name);
      assert !NameFirst()(out[j], out[i]);
    }
  }

  /** Everything granted so far is ahead of everything still open. */
  ghost predicate TopRun(slots: set<Slot>, shares: map<string, nat>) {
    && (forall s :: s in slots ==> s.name in shares && shares[s.name] <= s.capacity)
    && (forall s, t :: s in slots && t in slots && 0 < shares[s.name] && shares[t.name] < t.capacity ==>
          Before(Nth(s, shares[s.name]), Nth(t, shares[t.name] + 1)))
  }

  ghost function Granted(slots: set<Slot>, shares: map<string, nat>): set<Item>
    requires forall s :: s in slots ==> s.name in shares
  {
    set s, k | s in slots && 1 <= k <= s.capacity && k <= shares[s.name] :: Nth(s, k)
  }

  /** In such a state, granted items rank below the number granted and open ones do not. */
  lemma TopRunRanks(slots: set<Slot>, shares: map<string, nat>, s: Slot, k: nat)
    requires Functional(slots) && TopRun(slots, shares)
    requires s in slots && 1 <= k <= s.capacity
    ensures k <= shares[s.name] <==> Rank(slots, Nth(s, k)) < |Granted(slots, shares)|
  {
    var it, granted := Nth(s, k), Granted(slots, shares);
    assert it in Items(slots);
    if k <= shares[s.name] {
      assert it in granted;
      forall a | a in Ahead(slots, it) ensures a in granted - {it} {
        BeforeTotal(slots, a, it);
        var t :| t in slots && 1 <= a.k <= t.capacity && a == Nth(t, a.k);
        if a.k > shares[t.name] {
          LastBeforeNext(slots, shares, s, k, t, a.k);
        }
      }
      Subset(Ahead(slots, it), granted - {it});
    } else {
      forall g | g in granted ensures g in Ahead(slots, it) {
        var t :| t in slots && 1 <= g.k <= t.capacity && g.k <= shares[t.name] && g == Nth(t, g.k);
        LastBeforeNext(slots, shares, t, g.k, s, k);
        assert g in Items(slots);
      }
      Subset(granted, Ahead(slots, it));
    }
  }

  lemma LastBeforeNext(slots: set<Slot>, shares: map<string, nat>, s: Slot, j: nat, t: Slot, k: nat)
    requires TopRun(slots, shares) && s in slots && t in slots
    requires 1 <= j <= shares[s.name] && shares[t.name] < k <= t.capacity
    ensures Before(Nth(s, j), Nth(t, k))
  {
    var last, next := Nth(s, shares[s.name]), Nth(t, shares[t.name] + 1);
    if j < shares[s.name] {
      NthFalls(s, j, shares[s.name]);
      BeforeTransitive(Nth(s, j), last, next);
    }
    if shares[t.name] + 1 < k {
      NthFalls(t, shares[t.name] + 1, k);
      BeforeTransitive(Nth(s, j), next, Nth(t, k));
    }
  }

  ghost predicate BestOpen(slots: set<Slot>, shares: map<string, nat>, best: Slot)
    requires forall s :: s in slots ==> s.name in shares
  {
    && best in slots && shares[best.name] < best.capacity
    && forall s :: s in slots && s != best && shares[s.name] < s.capacity ==> NextBefore(best, s, shares)
  }

  /** Giving the best open item away keeps the invariant ... */
  lemma GrantKeepsTopRun(slots: set<Slot>, shares: map<string, nat>, best: Slot)
    requires Functional(slots) && TopRun(slots, shares) && BestOpen(slots, shares, best)
    ensures TopRun(slots, shares[best.name := shares[best.name] + 1])
  {
    var n := shares[best.name] + 1;
    var next := shares[best.name := n];
    NthFalls(best, n, n + 1);
    forall s, t | s in slots && t in slots && 0 < next[s.name] && next[t.name] < t.capacity
      ensures Before(Nth(s, next[s.name]), Nth(t, next[t.name] + 1))
    {
      if s != best && t == best {
        BeforeTransitive(Nth(s, shares[s.name]), Nth(best, n), Nth(best, n + 1));
      }
    }
  }

  lemma GrantMember(slots: set<Slot>, shares: map<string, nat>, best: Slot, i: Item)
    requires Functional(slots) && TopRun(slots, shares)
    requires best in slots && shares[best.name] < best.capacity
    ensures i in Granted(slots, shares[best.name := shares[best.name] + 1])
       <==> i in Granted(slots, shares) || i == Nth(best, shares[best.name] + 1)
    ensures Nth(best, shares[best.name] + 1) !in Granted(slots, shares)
  {
    var next := shares[best.name := shares[best.name] + 1];
    if i in Granted(slots, next) {
      var s :| s in slots && 1 <= i.k <= s.capacity && i.k <= next[s.name] && i == Nth(s, i.k);
      assert s == best || s.name != best.name;
    }
  }

  /** ... and grants exactly one item more. */
  lemma GrantAddsOne(slots: set<Slot>, shares: map<string, nat>, best: Slot)
    requires Functional(slots) && TopRun(slots, shares)
    requires best in slots && shares[best.name] < best.capacity
    ensures |Granted(slots, shares[best.name := shares[best.name] + 1])| == |Granted(slots, shares)| + 1
  {
    var before, after := Granted(slots, shares), Granted(slots, shares[best.name := shares[best.name] + 1]);
    var added := Nth(best, shares[best.name] + 1);
    forall i ensures i in after <==> i in before + {added} {
      GrantMember(slots, shares, best, i);
    }
    GrantMember(slots, shares, best, added);
    assert after == before + {added};
  }

  /** Comparing quotients rounded this way is comparing them exactly, for every item of these slots. */
  ghost predicate KeepsOrder(round: real -> real, slots: set<Slot>) {
    forall a, b :: a in Items(slots) && b in Items(slots) ==>
      (round(Quotient(a)) > round(Quotient(b)) <==> Quotient(a) > Quotient(b))
  }

  function Next(s: Slot, shares: map<string, nat>): Item
    requires s.name in shares
  {
    Nth(s, shares[s.name] + 1)
  }

  /** The same for the next items of these slots, which are in name order. */
  ghost predicate Comparable(openSlots: seq<Slot>, shares: map<string, nat>, round: real -> real)
    requires forall s :: s in openSlots ==> s.name in shares
  {
    && NameOrdered(openSlots)
    && forall s, t :: s in openSlots && t in openSlots ==>
         (round(Quotient(Next(s, shares))) > round(Quotient(Next(t, shares))) <==>
            Quotient(Next(s, shares)) > Quotient(Next(t, shares)))
  }

  /** Python's `max(open_slots, key=...)`: the first of the slots with the highest rounded quotient. */
  method PickBest(openSlots: seq<Slot>, shares: map<string, nat>, round: real -> real) returns (best: Slot)
    requires openSlots != []
    requires forall s :: s in openSlots ==> s.name in shares
    ensures best in openSlots
    ensures Comparable(openSlots, shares, round) ==>
              forall s :: s in openSlots && s != best ==> NextBefore(best, s, shares)
  {
    var at := 0;
    var j := 1;
    while j < |openSlots|
      invariant 0 <= at < j <= |openSlots|
      invariant Comparable(openSlots, shares, round) ==>
                  forall m :: 0 <= m < j && m != at ==> NextBefore(openSlots[at], openSlots[m], shares)
    {
      var sNext, bestNext := Next(openSlots[j], shares), Next(openSlots[at], shares);
      if round(Quotient(sNext)) > round(Quotient(bestNext)) {
        forall m | 0 <= m < j && Comparable(openSlots, shares, round)
          ensures NextBefore(openSlots[j], openSlots[m], shares)
        {
          assert openSlots[j] in openSlots && openSlots[at] in openSlots;
          if m != at { BeforeTransitive(sNext, bestNext, Next(openSlots[m], shares)); }
        }
        at := j;
      } else if Comparable(openSlots, shares, round) {
        assert openSlots[j] in openSlots && openSlots[at] in openSlots;
      }
      j := j + 1;
    }
    best := openSlots[at];
    assert Comparable(openSlots, shares, round) ==>
        forall m :: 0 <= m < |openSlots| && m != at ==> NextBefore(best, openSlots[m], shares);
  }

  /** The next item of `s` has priority over the next item of `t`. */
  predicate NextBefore(s: Slot, t: Slot, shares: map<string, nat>) {
    s.name in shares && t.name in shares && Before(Nth(s, shares[s.name] + 1), Nth(t, shares[t.name] + 1))
  }

  ghost function Names(slots: set<Slot>): set<string> { set s | s in slots :: s.name }

  /** What the loop of `split` keeps after granting `done` items. */
  ghost predicate Progress(slots: set<Slot>, shares: map<string, nat>, openSlots: seq<Slot>, done: nat) {
    && shares.Keys == Names(slots)
    && TopRun(slots, shares) && |Granted(slots, shares)| == done
    && NameOrdered(openSlots) && (forall s :: s in openSlots ==> s in slots)
    && (forall s :: s in slots && shares[s.name] < s.capacity ==> s in openSlots)
  }

  lemma ProgressStarts(slots: seq<Slot>, shares: map<string, nat>)
    requires DistinctNames(slots)
    requires shares == map s | s in slots :: s.name := 0
    ensures Progress(SlotSet(slots), shares, Sorted(NameFirst(), slots), 0)
  {
    SortByName(slots);
    assert Granted(SlotSet(slots), shares) == {};
  }

  lemma ProgressFilters(slots: set<Slot>, shares: map<string, nat>, openSlots: seq<Slot>, done: nat)
    requires Progress(slots, shares, openSlots, done)
    ensures Progress(slots, shares, FilterOpen(openSlots, shares), done)
  {
    FilterKeepsOrder(openSlots, shares);
  }

  lemma ProgressGrants(slots: set<Slot>, shares: map<string, nat>, openSlots: seq<Slot>, done: nat, best: Slot)
    requires Functional(slots) && Progress(slots, shares, openSlots, done)
    requires best in openSlots && shares[best.name] < best.capacity
    requires forall s :: s in openSlots && s != best ==> NextBefore(best, s, shares)
    ensures Progress(slots, shares[best.name := shares[best.name] + 1], openSlots, done + 1)
  {
    GrantKeepsTopRun(slots, shares, best);
    GrantAddsOne(slots, shares, best);
    assert best.name in Names(slots);
  }

  /** Open slots compare as their exact quotients do when all items do. */
  lemma OpenSlotsComparable(slots: set<Slot>, shares: map<string, nat>, openSlots: seq<Slot>, done: nat,
                            round: real -> real)
    requires Progress(slots, shares, openSlots, done) && KeepsOrder(round, slots)
    requires forall s :: s in openSlots ==> shares[s.name] < s.capacity
    ensures Comparable(openSlots, shares, round)
  {
    forall s | s in openSlots ensures Next(s, shares) in Items(slots) { assert s in slots; }
  }

  ghost predicate Sound(slots: seq<Slot>, round: real -> real) {
    DistinctNames(slots) && KeepsOrder(round, SlotSet(slots))
  }

  /** What the loop keeps for any slots, and what it keeps when they are sound. */
  ghost predicate Going(slots: seq<Slot>, shares: map<string, nat>, openSlots: seq<Slot>, done: nat,
                        round: real -> real) {
    && shares.Keys == Names(SlotSet(slots)) && (forall s :: s in openSlots ==> s in SlotSet(slots))
    && (Sound(slots, round) ==> Progress(SlotSet(slots), shares, openSlots, done))
  }

  lemma GoingStarts(slots: seq<Slot>, shares: map<string, nat>, round: real -> real)
    requires shares == map s | s in slots :: s.name := 0
    ensures Going(slots, shares, Sorted(NameFirst(), slots), 0, round)
  {
    SortedMembers(NameFirst(), slots);
    if Sound(slots, round) { ProgressStarts(slots, shares); }
  }

  lemma OpenNamed(slots: seq<Slot>, shares: map<string, nat>, openSlots: seq<Slot>, done: nat, round: real -> real,
                  s: Slot)
    requires Going(slots, shares, openSlots, done, round) && s in openSlots
    ensures s.name in shares
  {
    assert s.name in Names(SlotSet(slots));
  }

  lemma GoingFilters(slots: seq<Slot>, shares: map<string, nat>, openSlots: seq<Slot>, done: nat, round: real -> real)
    requires Going(slots, shares, openSlots, done, round)
    ensures forall s :: s in openSlots ==> s.name in shares
    ensures Going(slots, shares, FilterOpen(openSlots, shares), done, round)
    ensures Sound(slots, round) ==> Comparable(FilterOpen(openSlots, shares), shares, round)
  {
    forall s | s in openSlots ensures s.name in shares { OpenNamed(slots, shares, openSlots, done, round, s); }
    if Sound(slots, round) {
      ProgressFilters(SlotSet(slots), shares, openSlots, done);
      OpenSlotsComparable(SlotSet(slots), shares, FilterOpen(openSlots, shares), done, round);
    }
  }

  lemma GoingGrants(slots: seq<Slot>, shares: map<string, nat>, openSlots: seq<Slot>, done: nat, round: real -> real,
                    best: Slot)
    requires Going(slots, shares, openSlots, done, round) && best in openSlots
    requires best.name in shares && shares[best.name] < best.capacity
    requires Sound(slots, round) ==> forall s :: s in openSlots && s != best ==> NextBefore(best, s, shares)
    ensures Going(slots, shares[best.name := shares[best.name] + 1], openSlots, done + 1, round)
  {
    if Sound(slots, round) { ProgressGrants(SlotSet(slots), shares, openSlots, done, best); }
  }

  lemma GoingEnds(queued: int, slots: seq<Slot>, shares: map<string, nat>, openSlots: seq<Slot>, done: nat,
                  round: real -> real)
    requires Going(slots, shares, openSlots, done, round) && Sound(slots, round)
    requires done <= Max(0, queued) && (done < queued ==> openSlots == [])
    ensures shares == SplitSpec(queued, slots)
  {
    FinalShares(queued, slots, shares);
  }

  /** `round` is what the machine makes of a quotient: with distinct names, and rounding that keeps the
      order of the slots' items, the greedy loop returns the specified split. */
  method Split(queued: int, slots: seq<Slot>, round: real -> real) returns (shares: map<string, nat>)
    ensures shares.Keys == Names(SlotSet(slots))
    ensures Sound(slots, round) ==> shares == SplitSpec(queued, slots)
  {
    shares := map s | s in slots :: s.name := 0;
    var openSlots := Sorted(NameFirst(), slots);
    GoingStarts(slots, shares, round);
    var i := 0;
    while i < queued
      invariant i <= Max(0, queued) && Going(slots, shares, openSlots, i, round)
    {
      GoingFilters(slots, shares, openSlots, i, round);
      openSlots := FilterOpen(openSlots, shares);
      if openSlots == [] {
        break;
      }
      var best := PickBest(openSlots, shares, round);
      GoingGrants(slots, shares, openSlots, i, round, best);
      shares := shares[best.name := shares[best.name] + 1];
      i := i + 1;
    }
    if Sound(slots, round) { GoingEnds(queued, slots, shares, openSlots, i, round); }
  }

  lemma FinalShare(queued: int, slots: set<Slot>, shares: map<string, nat>, s: Slot)
    requires Functional(slots) && TopRun(slots, shares) && s in slots
    requires |Granted(slots, shares)| <= Max(0, queued)
    requires |Granted(slots, shares)| < queued ==> shares[s.name] == s.capacity
    ensures shares[s.name] == Share(queued, slots, s)
  {
    var taken := set k: nat | 1 <= k <= s.capacity && Rank(slots, Nth(s, k)) < queued;
    forall k: nat ensures k in taken <==> 1 <= k <= shares[s.name] {
      if 1 <= k <= s.capacity { TopRunRanks(slots, shares, s, k); }
    }
    var run := UpTo(shares[s.name]);
    assert taken == run;
  }

  /** Reading the shares off the final state of the loop. */
  lemma FinalShares(queued: int, slots: seq<Slot>, shares: map<string, nat>)
    requires DistinctNames(slots) && TopRun(SlotSet(slots), shares)
    requires shares.Keys == Names(SlotSet(slots))
    requires |Granted(SlotSet(slots), shares)| <= Max(0, queued)
    requires |Granted(SlotSet(slots), shares)| < queued ==>
               forall s :: s in slots ==> shares[s.name] == s.capacity
    ensures shares == SplitSpec(queued, slots)
  {
    forall s | s in SlotSet(slots) ensures shares[s.name] == Share(queued, SlotSet(slots), s) {
      FinalShare(queued, SlotSet(slots), shares, s);
    }
  }
}
