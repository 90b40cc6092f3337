/** What the queue split is for: order, totals, fairness, and safety of float quotients. */
module SplitTheorems {
  import opened Common
  import opened FederationSplit

  function Capacities(slots: seq<Slot>): (r: seq<int>)
    ensures |r| == |slots| && forall i :: 0 <= i < |slots| ==> r[i] == slots[i].capacity
  {
    if slots == [] then [] else [slots[0].capacity] + Capacities(slots[1..])
  }

  /** The shares in the order of the slots. */
  function Listed(slots: seq<Slot>, shares: map<string, nat>): (r: seq<int>)
    requires forall s :: s in slots ==> s.name in shares
    ensures |r| == |slots| && forall i :: 0 <= i < |slots| ==> r[i] == shares[slots[i].name]
  {
    if slots == [] then [] else [shares[slots[0].name]] + Listed(slots[1..], shares)
  }

  function Load(share: int, s: Slot): real { share as real / (s.freeCores + 1) as real }

  /** An allocation that respects every capacity. */
  ghost predicate Feasible(slots: seq<Slot>, shares: map<string, nat>) {
    forall s :: s in slots ==> s.name in shares && shares[s.name] <= s.capacity
  }

  // ------------------------------------------------------------ order and monotonicity

  lemma SameSlotsSameSplit(queued: int, a: seq<Slot>, b: seq<Slot>)
    requires DistinctNames(a) && DistinctNames(b) && forall s :: s in a <==> s in b
    ensures SplitSpec(queued, a) == SplitSpec(queued, b)
  {
    assert SlotSet(a) == SlotSet(b);
  }

  /** Every host computes the same split, whatever order it learned the slots in. */
  lemma SplitIgnoresOrder(queued: int, a: seq<Slot>, b: seq<Slot>)
    requires DistinctNames(a) && DistinctNames(b) && multiset(a) == multiset(b)
    ensures SplitSpec(queued, a) == SplitSpec(queued, b)
  {
    forall s ensures s in a <==> s in b {
      assert (s in a <==> s in multiset(a)) && (s in b <==> s in multiset(b));
    }
    SameSlotsSameSplit(queued, a, b);
  }

  /** Adding jobs never lowers anyone's share. */
  lemma SplitIsMonotone(queued: int, more: int, slots: seq<Slot>, s: Slot)
    requires DistinctNames(slots) && queued <= more && s in slots
    ensures SplitSpec(queued, slots)[s.name] <= SplitSpec(more, slots)[s.name] <= s.capacity
  {
    var all := SlotSet(slots);
    var low := set k: nat | 1 <= k <= s.capacity && Rank(all, Nth(s, k)) < queued;
    var high := set k: nat | 1 <= k <= s.capacity && Rank(all, Nth(s, k)) < more;
    Subset(low, high);
    if s.capacity > 0 {
      ShareIsRun(more, all, s, 1);
    }
  }

  /** Exactly the first `queued` items are taken: k is in a host's share just when fewer than
      `queued` items have priority over its k-th. */
  lemma SplitTakesTheFirst(queued: int, slots: seq<Slot>, s: Slot, k: nat)
    requires DistinctNames(slots) && s in slots && 1 <= k <= s.capacity
    ensures k <= SplitSpec(queued, slots)[s.name] <==> |Ahead(SlotSet(slots), Nth(s, k))| < queued
  {
    ShareIsRun(queued, SlotSet(slots), s, k);
  }

  // ------------------------------------------------------------ the total

  lemma {:induction false} LeastRank(slots: set<Slot>, items: set<Item>) returns (m: Item)
    requires items != {}
    ensures m in items && forall x :: x in items ==> Rank(slots, m) <= Rank(slots, x)
    decreases |items|
  {
    m :| m in items;
    var others := items - {m};
    if others != {} {
      var rest := LeastRank(slots, others);
      if Rank(slots, rest) < Rank(slots, m) {
        m := rest;
      }
    }
  }

  lemma {:induction false} HighestRank(slots: set<Slot>, items: set<Item>) returns (m: Item)
    requires items != {}
    ensures m in items && forall x :: x in items ==> Rank(slots, x) <= Rank(slots, m)
    decreases |items|
  {
    m :| m in items;
    var others := items - {m};
    if others != {} {
      var rest := HighestRank(slots, others);
      if Rank(slots, rest) > Rank(slots, m) {
        m := rest;
      }
    }
  }

  ghost function Taken(queued: int, slots: set<Slot>): set<Item> {
    set i | i in Items(slots) && Rank(slots, i) < queued
  }

  lemma RankDecides(slots: set<Slot>, a: Item, b: Item)
    requires Functional(slots) && a in Items(slots) && b in Items(slots)
    requires Rank(slots, a) <= Rank(slots, b) && a != b
    ensures Before(a, b)
  {
    BeforeTotal(slots, a, b);
    if Before(b, a) {
      RankRises(slots, b, a);
    }
  }

  lemma TakenAtMost(queued: nat, slots: set<Slot>)
    requires Functional(slots)
    ensures |Taken(queued, slots)| <= queued
  {
    var taken := Taken(queued, slots);
    if taken != {} {
      var last := HighestRank(slots, taken);
      forall i | i in taken ensures i in Ahead(slots, last) + {last} {
        if i != last { RankDecides(slots, i, last); }
      }
      Subset(taken, Ahead(slots, last) + {last});
    }
  }

  lemma TakenIsAhead(queued: nat, slots: set<Slot>, first: Item)
    requires Functional(slots)
    requires first in Items(slots) && Rank(slots, first) >= queued
    requires forall i :: i in Items(slots) && i !in Taken(queued, slots) ==> Rank(slots, first) <= Rank(slots, i)
    ensures Taken(queued, slots) == Ahead(slots, first)
  {
    forall i | i in Items(slots) ensures i in Taken(queued, slots) <==> i in Ahead(slots, first) {
      if i in Taken(queued, slots) {
        RankDecides(slots, i, first);
      } else if Before(i, first) {
        RankRises(slots, i, first);
      }
    }
  }

  /** In a finite total order the items of rank below q number min(q, all). */
  lemma TakenCount(queued: nat, slots: set<Slot>)
    requires Functional(slots)
    ensures |Taken(queued, slots)| == Min(queued, |Items(slots)|)
  {
    var open := Items(slots) - Taken(queued, slots);
    Subset(Taken(queued, slots), Items(slots));
    TakenAtMost(queued, slots);
    if open == {} {
      assert forall i :: i in Items(slots) ==> i !in open;
      assert Taken(queued, slots) == Items(slots);
    } else {
      var first := LeastRank(slots, open);
      TakenIsAhead(queued, slots, first);
    }
  }

  lemma {:induction false} HostItems(s: Slot)
    ensures |Items({s})| == s.capacity
    decreases s.capacity
  {
    if s.capacity == 0 {
      assert Items({s}) == {};
    } else {
      var fewer := s.(capacity := s.capacity - 1);
      HostItems(fewer);
      forall i ensures i in Items({s}) <==> i in Items({fewer}) + {Nth(s, s.capacity)} {
        assert forall k: Position :: Nth(s, k) == Nth(fewer, k);
        if i in Items({fewer}) { assert i == Nth(s, i.k); }
        if i in Items({s}) && i.k < s.capacity { assert i == Nth(fewer, i.k); }
      }
      assert Items({s}) == Items({fewer}) + {Nth(s, s.capacity)};
    }
  }

  /** Counting items host by host. */
  lemma {:induction false} ItemsCount(slots: seq<Slot>)
    requires DistinctNames(slots)
    ensures |Items(SlotSet(slots))| == Sum(Capacities(slots))
  {
    if slots == [] {
      assert Items(SlotSet(slots)) == {};
    } else {
      var s, rest := slots[0], slots[1..];
      ItemsCount(rest);
      HostItems(s);
      assert SlotSet(slots) == {s} + SlotSet(rest) by { assert slots == [s] + rest; }
      ItemsUnion({s}, SlotSet(rest));
      assert Items({s}) !! Items(SlotSet(rest));
    }
  }

  lemma ItemsUnion(a: set<Slot>, b: set<Slot>)
    ensures Items(a + b) == Items(a) + Items(b)
  {
    forall i ensures i in Items(a + b) <==> i in Items(a) + Items(b) {}
  }

  /** The slots with every capacity cut down to the share received. */
  function Filled(slots: seq<Slot>, shares: map<string, nat>): (r: seq<Slot>)
    requires forall s :: s in slots ==> s.name in shares
    ensures |r| == |slots|
    ensures forall i :: 0 <= i < |slots| ==> r[i] == slots[i].(capacity := shares[slots[i].name])
    ensures Capacities(r) == Listed(slots, shares)
  {
    if slots == [] then [] else [slots[0].(capacity := shares[slots[0].name])] + Filled(slots[1..], shares)
  }

  lemma KeyedByName(slots: seq<Slot>)
    requires DistinctNames(slots)
    ensures Functional(SlotSet(slots))
  {
  }

  /** Among a host's items, those up to its share are the ones taken. */
  lemma TakenMember(queued: int, slots: seq<Slot>, filled: seq<Slot>, at: nat, k: Position)
    requires DistinctNames(slots) && filled == Filled(slots, SplitSpec(queued, slots))
    requires at < |slots|
    ensures k <= filled[at].capacity <==> k <= slots[at].capacity && Rank(SlotSet(slots), Nth(slots[at], k)) < queued
  {
    KeyedByName(slots);
    assert slots[at] in SlotSet(slots);
    SplitIsMonotone(queued, queued, slots, slots[at]);
    if k <= slots[at].capacity {
      SplitTakesTheFirst(queued, slots, slots[at], k);
    }
  }

  /** `filled` lists, host by host, exactly the items that rank below `queued`. */
  ghost predicate Fills(queued: int, slots: seq<Slot>, filled: seq<Slot>) {
    && |filled| == |slots|
    && (forall at :: 0 <= at < |slots| ==> filled[at] == slots[at].(capacity := filled[at].capacity))
    && (forall at, k: Position :: 0 <= at < |slots| ==>
          (k <= filled[at].capacity <==> k <= slots[at].capacity && Rank(SlotSet(slots), Nth(slots[at], k)) < queued))
  }

  lemma FilledHolds(queued: int, slots: seq<Slot>, filled: seq<Slot>, i: Item)
    requires Fills(queued, slots, filled)
    ensures i in Taken(queued, SlotSet(slots)) ==> i in Items(SlotSet(filled))
  {
    if i in Taken(queued, SlotSet(slots)) {
      var s :| s in slots && 1 <= i.k <= s.capacity && i == Nth(s, i.k);
      var at :| 0 <= at < |slots| && slots[at] == s;
      assert filled[at] in SlotSet(filled) && i == Nth(filled[at], i.k);
    }
  }

  lemma FilledHoldsOnly(queued: int, slots: seq<Slot>, filled: seq<Slot>, i: Item)
    requires Fills(queued, slots, filled)
    ensures i in Items(SlotSet(filled)) ==> i in Taken(queued, SlotSet(slots))
  {
    if i in Items(SlotSet(filled)) {
      var f :| f in filled && 1 <= i.k <= f.capacity && i == Nth(f, i.k);
      var at :| 0 <= at < |filled| && filled[at] == f;
      assert slots[at] in SlotSet(slots) && i == Nth(slots[at], i.k);
    }
  }

  lemma TakenIsFilled(queued: int, slots: seq<Slot>, filled: seq<Slot>)
    requires DistinctNames(slots) && filled == Filled(slots, SplitSpec(queued, slots))
    ensures Taken(queued, SlotSet(slots)) == Items(SlotSet(filled))
  {
    forall at, k: Position | 0 <= at < |slots|
      ensures k <= filled[at].capacity <==> k <= slots[at].capacity && Rank(SlotSet(slots), Nth(slots[at], k)) < queued
    {
      TakenMember(queued, slots, filled, at, k);
    }
    SameItems(queued, slots, filled);
  }

  lemma SameItems(queued: int, slots: seq<Slot>, filled: seq<Slot>)
    requires Fills(queued, slots, filled)
    ensures Taken(queued, SlotSet(slots)) == Items(SlotSet(filled))
  {
    forall i ensures i in Taken(queued, SlotSet(slots)) <==> i in Items(SlotSet(filled)) {
      FilledHolds(queued, slots, filled, i);
      FilledHoldsOnly(queued, slots, filled, i);
    }
  }

  lemma SplitIsFeasible(queued: int, slots: seq<Slot>)
    requires DistinctNames(slots)
    ensures Feasible(slots, SplitSpec(queued, slots))
  {
    forall s | s in slots ensures SplitSpec(queued, slots)[s.name] <= s.capacity {
      SplitIsMonotone(queued, queued, slots, s);
    }
  }

  /** Every job goes to one host, as far as there is room. */
  lemma SplitIsExact(queued: int, slots: seq<Slot>)
    requires DistinctNames(slots)
    ensures Sum(Listed(slots, SplitSpec(queued, slots))) == Min(Max(0, queued), Sum(Capacities(slots)))
  {
    var all, q := SlotSet(slots), Max(0, queued);
    assert Taken(queued, all) == Taken(q, all);
    KeyedByName(slots);
    TakenCount(q, all);
    var filled := Filled(slots, SplitSpec(queued, slots));
    TakenIsFilled(queued, slots, filled);
    ItemsCount(slots);
    ItemsCount(filled);
  }

  // ------------------------------------------------------------ optimality

  lemma SignOfProduct(d: real, p: real)
    requires p > 0.0
    ensures (d >= 0.0 <==> d * p >= 0.0) && (d > 0.0 <==> d * p > 0.0)
  {
    if d < 0.0 { assert -d * p > 0.0; }
  }

  lemma Difference(x: real, y: real, w: real, j: real, v: real, k: real)
    requires x * j == w && y * k == v
    ensures (x - y) * (j * k) == w * k - v * j
  {
    assert (x - y) * (j * k) == (x * j) * k - (y * k) * j;
  }

  /** Comparing quotients is comparing cross products of integers. */
  lemma CrossMultiply(w: nat, j: nat, v: nat, k: nat)
    requires j > 0 && k > 0
    ensures w as real / j as real >= v as real / k as real <==> w * k >= v * j
    ensures (w as real / j as real - v as real / k as real) * (j * k) as real == (w * k - v * j) as real
  {
    var x, y := w as real / j as real, v as real / k as real;
    Difference(x, y, w as real, j as real, v as real, k as real);
    assert (j * k) as real == j as real * k as real;
    assert (w * k) as real == w as real * k as real && (v * j) as real == v as real * j as real;
    SignOfProduct(x - y, (j * k) as real);
  }

  lemma LoadRises(s: Slot, a: nat, b: int)
    requires a <= b
    ensures Load(a, s) <= Load(b, s)
  {
    CrossMultiply(b, s.freeCores + 1, a, s.freeCores + 1);
  }

  lemma PriorityBoundsLoad(s: Slot, a: nat, t: Slot, b: nat)
    requires a > 0 && b > 0 && Before(Nth(s, a), Nth(t, b))
    ensures Load(a, s) <= Load(b, t)
  {
    CrossMultiply(s.freeCores + 1, a, t.freeCores + 1, b);
    CrossMultiply(b, t.freeCores + 1, a, s.freeCores + 1);
  }

  /** The exchange condition: moving the last job of `s` to `t` would load `t` at least as much. */
  lemma ExchangeCondition(queued: int, slots: seq<Slot>, s: Slot, t: Slot)
    requires DistinctNames(slots) && s in slots && t in slots
    requires SplitSpec(queued, slots)[t.name] < t.capacity
    ensures Load(SplitSpec(queued, slots)[s.name], s) <= Load(SplitSpec(queued, slots)[t.name] + 1, t)
  {
    var all, a, b := SlotSet(slots), SplitSpec(queued, slots)[s.name], SplitSpec(queued, slots)[t.name];
    if a == 0 {
      CrossMultiply(b + 1, t.freeCores + 1, a, s.freeCores + 1);
    } else {
      SplitIsMonotone(queued, queued, slots, s);
      ShareIsRun(queued, all, s, a);
      ShareIsRun(queued, all, t, b + 1);
      RankDecides(all, Nth(s, a), Nth(t, b + 1));
      PriorityBoundsLoad(s, a, t, b + 1);
    }
  }

  /** Any feasible allocation that satisfies the exchange condition has the lowest possible peak. */
  lemma PeakFromExchange(slots: seq<Slot>, mine: map<string, nat>, other: map<string, nat>, i: nat) returns (j: nat)
    requires Feasible(slots, mine) && Feasible(slots, other) && i < |slots|
    requires Sum(Listed(slots, other)) == Sum(Listed(slots, mine))
    requires forall t :: t in slots && mine[t.name] < t.capacity ==>
               Load(Listed(slots, mine)[i], slots[i]) <= Load(mine[t.name] + 1, t)
    ensures j < |slots| && Load(Listed(slots, other)[j], slots[j]) >= Load(Listed(slots, mine)[i], slots[i])
  {
    var a, b := Listed(slots, mine), Listed(slots, other);
    if b[i] >= a[i] {
      LoadRises(slots[i], a[i], b[i]);
      j := i;
    } else {
      j := SomeLarger(b, a, i);
      assert slots[j] in slots;
      LoadRises(slots[j], a[j] + 1, b[j]);
    }
  }

  lemma SplitExchanges(queued: int, slots: seq<Slot>, i: nat, t: Slot)
    requires DistinctNames(slots) && i < |slots| && t in slots
    requires SplitSpec(queued, slots)[t.name] < t.capacity
    ensures slots[i].name in SplitSpec(queued, slots)
    ensures Load(SplitSpec(queued, slots)[slots[i].name], slots[i]) <= Load(SplitSpec(queued, slots)[t.name] + 1, t)
  {
    ExchangeCondition(queued, slots, slots[i], t);
  }

  /** No allocation of as many jobs has a lower peak of jobs per weight: whatever load the split puts
      on a host, any other feasible allocation puts at least that on some host. */
  lemma SplitMinimisesPeak(queued: int, slots: seq<Slot>, other: map<string, nat>, i: nat) returns (j: nat)
    requires DistinctNames(slots) && i < |slots| && Feasible(slots, other)
    requires Sum(Listed(slots, other)) == Sum(Listed(slots, SplitSpec(queued, slots)))
    ensures j < |slots|
    ensures Load(Listed(slots, other)[j], slots[j]) >= Load(Listed(slots, SplitSpec(queued, slots))[i], slots[i])
  {
    SplitIsFeasible(queued, slots);
    j := PeakOf(queued, slots, SplitSpec(queued, slots), other, i);
  }

  lemma PeakOf(queued: int, slots: seq<Slot>, mine: map<string, nat>, other: map<string, nat>, i: nat) returns (j: nat)
    requires DistinctNames(slots) && i < |slots| && mine == SplitSpec(queued, slots)
    requires Feasible(slots, mine) && Feasible(slots, other) && Sum(Listed(slots, other)) == Sum(Listed(slots, mine))
    ensures j < |slots| && Load(Listed(slots, other)[j], slots[j]) >= Load(Listed(slots, mine)[i], slots[i])
  {
    assert slots[i] in slots && Listed(slots, mine)[i] == mine[slots[i].name];
    forall t | t in slots && mine[t.name] < t.capacity
      ensures Load(mine[slots[i].name], slots[i]) <= Load(mine[t.name] + 1, t)
    {
      SplitExchanges(queued, slots, i, t);
    }
    j := PeakFromExchange(slots, mine, other, i);
  }

  // ------------------------------------------------------------ float quotients

  /** Division rounded to nearest, for quotients of the sizes met here: relative error at most 2^-53, and
      equal inputs round equally. */
  ghost predicate RoundsToNearest(round: real -> real) {
    forall x :: 0.0 < x <= 1025.0 ==> x - x / 9007199254740992.0 <= round(x) <= x + x / 9007199254740992.0
  }

  lemma QuotientGap(w: nat, j: nat, v: nat, k: nat)
    requires 0 < w && 0 < v && 0 < j <= 1000 && 0 < k <= 1000
    requires w as real / j as real > v as real / k as real
    ensures w as real / j as real - v as real / k as real >= 0.000001
  {
    CrossMultiply(w, j, v, k);
    ProductBound(j, k);
    GapFromProduct(w as real / j as real - v as real / k as real, j * k, w * k - v * j);
  }

  lemma ProductBound(j: nat, k: nat)
    requires 0 < j <= 1000 && 0 < k <= 1000
    ensures 0 < j * k <= 1000000
  {
    assert j * k <= 1000 * k;
  }

  lemma GapFromProduct(x: real, p: int, n: int)
    requires x > 0.0 && 0 < p <= 1000000 && x * p as real == n as real
    ensures x >= 0.000001
  {
    SignOfProduct(x, p as real);
    SignOfProduct(1000000.0 - p as real, x);
    assert n >= 1;
  }

  /** Within the sizes a validated snapshot allows, comparing rounded quotients is comparing exact ones. */
  lemma FloatQuotientsAgree(round: real -> real, a: Item, b: Item)
    requires RoundsToNearest(round)
    requires 0 < a.weight <= 1025 && 0 < b.weight <= 1025 && 0 < a.k <= 1000 && 0 < b.k <= 1000
    ensures round(Quotient(a)) > round(Quotient(b)) <==> Quotient(a) > Quotient(b)
    ensures round(Quotient(a)) == round(Quotient(b)) <==> Quotient(a) == Quotient(b)
  {
    SmallQuotient(a);
    SmallQuotient(b);
    if Quotient(a) > Quotient(b) {
      QuotientGap(a.weight, a.k, b.weight, b.k);
    } else if Quotient(b) > Quotient(a) {
      QuotientGap(b.weight, b.k, a.weight, a.k);
    }
  }

  predicate InFloatRange(s: Slot) { s.freeCores <= 1024 && s.capacity <= 1000 }

  /** So in double precision the loop of `split` makes the exact choices, and returns the exact split. */
  lemma FloatsKeepOrder(round: real -> real, slots: set<Slot>)
    requires RoundsToNearest(round) && forall s :: s in slots ==> InFloatRange(s)
    ensures KeepsOrder(round, slots)
  {
    forall a, b | a in Items(slots) && b in Items(slots)
      ensures round(Quotient(a)) > round(Quotient(b)) <==> Quotient(a) > Quotient(b)
    {
      ItemInRange(slots, a);
      ItemInRange(slots, b);
      FloatQuotientsAgree(round, a, b);
    }
  }

  lemma ItemInRange(slots: set<Slot>, i: Item)
    requires i in Items(slots) && forall s :: s in slots ==> InFloatRange(s)
    ensures 0 < i.weight <= 1025 && 0 < i.k <= 1000
  {
    var s :| s in slots && 1 <= i.k <= s.capacity && i == Nth(s, i.k);
  }

  lemma SmallQuotient(i: Item)
    requires 0 < i.weight <= 1025 && 0 < i.k
    ensures 0.0 < Quotient(i) <= 1025.0
  {
    CrossMultiply(i.weight, 1, i.weight, i.k);
    CrossMultiply(0, 1, i.weight, i.k);
  }
}
