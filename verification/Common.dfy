/** Small shared vocabulary: options, sums, Python's string order and `sorted`. */
module Common {
  datatype Option<+T> = None | Some(value: T)

  function Max(a: int, b: int): int { if a < b then b else a }

  function Min(a: int, b: int): int { if a < b then a else b }

  function MaxReal(a: real, b: real): real { if a < b then b else a }

  function Sum(xs: seq<int>): int {
    if xs == [] then 0 else xs[0] + Sum(xs[1..])
  }

  /** Sums of two equally long sequences compare like their elements. */
  lemma {:induction false} SumMonotone(xs: seq<int>, ys: seq<int>)
    requires |xs| == |ys|
    requires forall i :: 0 <= i < |xs| ==> xs[i] <= ys[i]
    ensures Sum(xs) <= Sum(ys)
    ensures Sum(xs) == Sum(ys) ==> xs == ys
  {
    if xs != [] {
      SumMonotone(xs[1..], ys[1..]);
      assert xs == [xs[0]] + xs[1..] && ys == [ys[0]] + ys[1..];
    }
  }

  /** Pigeonhole: with equal sums, a smaller element somewhere means a larger one elsewhere. */
  lemma SomeLarger(xs: seq<int>, ys: seq<int>, i: nat) returns (j: nat)
    requires |xs| == |ys| && i < |xs|
    requires Sum(xs) == Sum(ys) && xs[i] < ys[i]
    ensures j < |xs| && xs[j] > ys[j]
  {
    if forall k :: 0 <= k < |xs| ==> xs[k] <= ys[k] {
      SumMonotone(xs, ys);
      assert false;
    }
    j :| j < |xs| && xs[j] > ys[j];
  }

  lemma {:induction false} SumAppend(xs: seq<int>, ys: seq<int>)
    ensures Sum(xs + ys) == Sum(xs) + Sum(ys)
  {
    if xs == [] {
      assert xs + ys == ys;
    } else {
      assert (xs + ys)[1..] == xs[1..] + ys;
      SumAppend(xs[1..], ys);
    }
  }

  lemma {:induction false} SumUpdate(xs: seq<int>, i: nat, x: int)
    requires i < |xs|
    ensures Sum(xs[i := x]) == Sum(xs) - xs[i] + x
  {
    if i == 0 {
      assert xs[i := x][1..] == xs[1..];
    } else {
      assert xs[i := x][1..] == xs[1..][i - 1 := x];
      SumUpdate(xs[1..], i - 1, x);
    }
  }

  /** Python orders strings by code point, left to right. */
  predicate Less(a: string, b: string) {
    if b == [] then false
    else if a == [] then true
    else if a[0] != b[0] then a[0] < b[0]
    else Less(a[1..], b[1..])
  }

  lemma {:induction false} LessTransitive(a: string, b: string, c: string)
    requires Less(a, b) && Less(b, c)
    ensures Less(a, c)
  {
    if a != [] && a[0] == b[0] && b[0] == c[0] {
      LessTransitive(a[1..], b[1..], c[1..]);
    }
  }

  lemma {:induction false} LessTotal(a: string, b: string)
    ensures (a == b || Less(a, b) || Less(b, a)) && !(Less(a, b) && Less(b, a)) && (a == b ==> !Less(a, b))
  {
    if a != [] && b != [] && a[0] == b[0] {
      LessTotal(a[1..], b[1..]);
      assert a == [a[0]] + a[1..] && b == [b[0]] + b[1..];
    }
  }

  /** The order is by the first place where the strings differ, a string before every longer one it begins. */
  lemma {:induction false} LessIff(a: string, b: string)
    ensures Less(a, b) <==>
              exists k :: 0 <= k <= |a| && k < |b| && a[..k] == b[..k] && (k == |a| || a[k] < b[k])
  {
    if a != [] && b != [] && a[0] == b[0] {
      LessIff(a[1..], b[1..]);
      if Less(a, b) {
        var k :| 0 <= k <= |a[1..]| && k < |b[1..]| && a[1..][..k] == b[1..][..k]
                 && (k == |a[1..]| || a[1..][k] < b[1..][k]);
        assert a[..k + 1] == [a[0]] + a[1..][..k] && b[..k + 1] == [b[0]] + b[1..][..k];
      }
      if k :| 0 <= k <= |a| && k < |b| && a[..k] == b[..k] && (k == |a| || a[k] < b[k]) {
        assert k > 0;
        assert a[1..][..k - 1] == a[..k][1..] && b[1..][..k - 1] == b[..k][1..];
        assert k < |a| ==> a[1..][k - 1] == a[k];
        assert b[1..][k - 1] == b[k];
      }
    } else if a == [] {
      assert a[..0] == b[..0];
    } else if b != [] && a[0] != b[0] {
      assert a[..0] == b[..0];
      forall k | 0 < k <= |a| && k < |b| ensures a[..k] != b[..k] { assert a[..k][0] != b[..k][0]; }
    }
  }

  /** `str.lower` on ASCII letters: letters of the same place in the alphabet, everything else kept. */
  function Lower(s: string): (r: string)
    ensures |r| == |s|
    ensures forall i :: 0 <= i < |s| ==> if 'A' <= s[i] <= 'Z' then r[i] as int == s[i] as int + 32 else r[i] == s[i]
  {
    seq(|s|, i requires 0 <= i < |s| => if 'A' <= s[i] <= 'Z' then s[i] - 'A' + 'a' else s[i])
  }

  /** What `before` must satisfy to be "has the smaller key" for some totally ordered key. */
  ghost predicate StrictOrder<T(!new)>(before: (T, T) -> bool) {
    && (forall x, y :: before(x, y) ==> !before(y, x))
    && (forall x, y, z :: before(x, y) && before(y, z) ==> before(x, z))
    && (forall x, y, z :: before(x, z) ==> before(x, y) || before(y, z))
  }

  function Insert<T>(before: (T, T) -> bool, x: T, ys: seq<T>): seq<T> {
    if ys == [] || before(x, ys[0]) then [x] + ys else [ys[0]] + Insert(before, x, ys[1..])
  }

  /** A stable insertion sort standing for Python's `sorted`. */
  function Sorted<T>(before: (T, T) -> bool, xs: seq<T>): seq<T> {
    if xs == [] then [] else Insert(before, xs[|xs| - 1], Sorted(before, xs[..|xs| - 1]))
  }

  ghost predicate InOrder<T>(before: (T, T) -> bool, xs: seq<T>) {
    forall i, j :: 0 <= i < j < |xs| ==> !before(xs[j], xs[i])
  }

  lemma {:induction false} InsertHolds<T(!new)>(before: (T, T) -> bool, x: T, ys: seq<T>)
    ensures multiset(Insert(before, x, ys)) == multiset(ys) + multiset{x}
    ensures forall z :: z in Insert(before, x, ys) <==> z == x || z in ys
  {
    if ys != [] && !before(x, ys[0]) {
      InsertHolds(before, x, ys[1..]);
      assert ys == [ys[0]] + ys[1..];
    }
  }

  lemma {:induction false} InsertOrders<T(!new)>(before: (T, T) -> bool, x: T, ys: seq<T>)
    requires StrictOrder(before) && InOrder(before, ys)
    ensures InOrder(before, Insert(before, x, ys))
  {
    if ys == [] {
    } else if before(x, ys[0]) {
      forall j | 0 <= j < |ys| ensures !before(ys[j], x) {
        assert j > 0 ==> !before(ys[j], ys[0]);
      }
    } else {
      InsertOrders(before, x, ys[1..]);
      InsertHolds(before, x, ys[1..]);
      forall z | z in Insert(before, x, ys[1..]) ensures !before(z, ys[0]) {
        if z != x {
          var k :| 0 < k < |ys| && ys[k] == z;
        }
      }
    }
  }

  lemma {:induction false} SortedKeeps<T(!new)>(before: (T, T) -> bool, xs: seq<T>)
    requires StrictOrder(before)
    ensures multiset(Sorted(before, xs)) == multiset(xs)
    ensures InOrder(before, Sorted(before, xs))
  {
    if xs != [] {
      var last := |xs| - 1;
      SortedKeeps(before, xs[..last]);
      InsertHolds(before, xs[last], Sorted(before, xs[..last]));
      InsertOrders(before, xs[last], Sorted(before, xs[..last]));
      assert xs == xs[..last] + [xs[last]];
    }
  }

  lemma {:induction false} SortedMembers<T(!new)>(before: (T, T) -> bool, xs: seq<T>)
    ensures forall x :: x in Sorted(before, xs) <==> x in xs
  {
    if xs != [] {
      var last := |xs| - 1;
      SortedMembers(before, xs[..last]);
      InsertHolds(before, xs[last], Sorted(before, xs[..last]));
      assert xs == xs[..last] + [xs[last]];
    }
  }

  ghost predicate DistinctBy<T(!new)>(key: T -> string, xs: seq<T>) {
    forall i, j :: 0 <= i < j < |xs| ==> key(xs[i]) != key(xs[j])
  }

  lemma {:induction false} InsertDistinct<T(!new)>(before: (T, T) -> bool, key: T -> string, x: T, ys: seq<T>)
    requires DistinctBy(key, ys) && forall y :: y in ys ==> key(y) != key(x)
    ensures DistinctBy(key, Insert(before, x, ys))
  {
    if ys != [] && !before(x, ys[0]) {
      InsertDistinct(before, key, x, ys[1..]);
      InsertHolds(before, x, ys[1..]);
      forall z | z in Insert(before, x, ys[1..]) ensures key(z) != key(ys[0]) {
        if z != x {
          var k :| 0 <= k < |ys[1..]| && ys[1..][k] == z;
          assert ys[k + 1] == z;
        }
      }
    }
  }

  /** Sorting keeps the elements, and keeps distinct keys distinct. */
  lemma {:induction false} SortedDistinct<T(!new)>(before: (T, T) -> bool, key: T -> string, xs: seq<T>)
    requires DistinctBy(key, xs)
    ensures DistinctBy(key, Sorted(before, xs))
    ensures forall x :: x in Sorted(before, xs) <==> x in xs
  {
    if xs != [] {
      var last := |xs| - 1;
      SortedDistinct(before, key, xs[..last]);
      InsertHolds(before, xs[last], Sorted(before, xs[..last]));
      assert xs == xs[..last] + [xs[last]];
      forall y | y in xs[..last] ensures key(y) != key(xs[last]) {
        var k :| 0 <= k < last && xs[k] == y;
      }
      InsertDistinct(before, key, xs[last], Sorted(before, xs[..last]));
    }
  }
}
