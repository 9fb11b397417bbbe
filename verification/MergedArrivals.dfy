// A merged packet that arrives at a merged entry: exactly when deleting the
// recorded numbers deletes the sub-packets they were recorded for.
module MergedArrivals {
  import opened Common
  import opened Subpackets
  import opened Supersede

  predicate Increasing(s: seq<nat>) {
    forall i, j :: 0 <= i < j < |s| ==> s[i] < s[j]
  }

  predicate NoRepeats(d: seq<nat>) {
    forall i, j :: 0 <= i < j < |d| ==> d[i] != d[j]
  }

  /** The numbers of n sub-packets. */
  function Numbers(n: nat): (s: seq<nat>)
    ensures |s| == n && forall i :: 0 <= i < n ==> s[i] == i + 1
  {
    if n == 0 then [] else Numbers(n - 1) + [n]
  }

  /** The numbers that should be left when those in d go. */
  function Remaining(n: nat, d: seq<nat>): seq<nat> {
    if n == 0 then [] else Remaining(n - 1, d) + if n in d then [] else [n]
  }

  lemma {:induction false} RemainingIs(n: nat, d: seq<nat>)
    ensures forall x :: x in Remaining(n, d) <==> 1 <= x <= n && x !in d
  {
    if n != 0 {
      RemainingIs(n - 1, d);
    }
  }

  lemma {:induction false} RemainingSame(n: nat, d: seq<nat>, e: seq<nat>)
    requires forall x :: 1 <= x <= n ==> (x in d <==> x in e)
    ensures Remaining(n, d) == Remaining(n, e)
  {
    if n != 0 {
      RemainingSame(n - 1, d, e);
    }
  }

  lemma {:induction false} RemainingBound(n: nat, d: seq<nat>)
    ensures |Remaining(n, d)| <= n
  {
    if n != 0 {
      RemainingBound(n - 1, d);
    }
  }

  /** Different numbers between 1 and n, and the others, are n at most. */
  lemma {:induction false} RemainingCount(n: nat, d: seq<nat>)
    requires NoRepeats(d) && Between(d, n)
    ensures |Remaining(n, d)| + |d| <= n
  {
    if d == [] {
      RemainingBound(n, d);
    } else if n in d {
      var i :| 0 <= i < |d| && d[i] == n;
      var e := d[..i] + d[i + 1..];
      assert d == d[..i] + [n] + d[i + 1..];
      forall x | x in e
        ensures 1 <= x <= n - 1
      {
        assert x in d && x != n;
      }
      RemainingSame(n - 1, d, e);
      RemainingCount(n - 1, e);
    } else {
      assert d[0] in d;
      RemainingCount(n - 1, d);
    }
  }

  lemma {:induction false} DeletedAt<T>(s: seq<T>, number: nat, i: nat)
    requires 1 <= number <= |s| && i < |s| - 1
    ensures |Deleted(s, number)| == |s| - 1
    ensures Deleted(s, number)[i] == if i < number - 1 then s[i] else s[i + 1]
  {
  }

  lemma {:induction false} DeletedIncreasing(s: seq<nat>, number: nat)
    requires Increasing(s)
    ensures Increasing(Deleted(s, number))
    ensures forall x :: x in Deleted(s, number) ==> x in s
  {
  }

  /** Each number deletes one element at most, and nothing new appears. */
  lemma {:induction false} NoneAppears(s: seq<nat>, d: seq<nat>)
    requires Increasing(s)
    ensures |AllDeleted(s, d)| + |d| >= |s| && Increasing(AllDeleted(s, d))
    ensures forall x :: x in AllDeleted(s, d) ==> x in s
    decreases |d|
  {
    if d != [] {
      DeletedIncreasing(s, Last(d));
      NoneAppears(Deleted(s, Last(d)), d[..|d| - 1]);
    }
  }

  lemma {:induction false} DeletedIsGone(s: seq<nat>, m: nat)
    requires Increasing(s) && 1 <= m <= |s|
    ensures s[m - 1] !in Deleted(s, m)
  {
  }

  /** A deletion moves elements down only, so what is at place m stays beyond m. */
  lemma {:induction false} StaysBeyond(s: seq<nat>, number: nat, m: nat)
    requires Increasing(s) && 1 <= number <= |s| && m > 0 && (m <= |s| ==> s[m - 1] > m)
    ensures m <= |Deleted(s, number)| ==> Deleted(s, number)[m - 1] > m
  {
    if m <= |s| - 1 {
      DeletedAt(s, number, m - 1);
      assert s[m - 1] < s[m];
    }
  }

  /** Once the element at place m is beyond m, deleting place m hits an element beyond m. */
  lemma {:induction false} HitsBeyond(s: seq<nat>, d: seq<nat>, m: nat) returns (v: nat)
    requires Increasing(s) && m in d && m > 0 && (m <= |s| ==> s[m - 1] > m)
    requires |AllDeleted(s, d)| + |d| == |s|
    ensures v in s && v > m && v !in AllDeleted(s, d)
    decreases |d|
  {
    var number, front := Last(d), d[..|d| - 1];
    var rest := Deleted(s, number);
    DeletedIncreasing(s, number);
    NoneAppears(rest, front);
    if number == m {
      v := s[m - 1];
      DeletedIsGone(s, m);
    } else {
      StaysBeyond(s, number, m);
      SplitLast(d);
      v := HitsBeyond(rest, front, m);
    }
  }

  /** The first b elements stand at their own places. */
  predicate InPlace(s: seq<nat>, b: nat) {
    Increasing(s) && b <= |s| && forall i :: 0 <= i < b ==> s[i] == i + 1
  }

  /** All numbers lie between 1 and n. */
  predicate Between(d: seq<nat>, n: nat) {
    forall x :: x in d ==> 1 <= x <= n
  }

  /** The elements in left are those of s that d does not name. */
  predicate WithoutNamed(left: seq<nat>, s: seq<nat>, d: seq<nat>) {
    forall x :: x in s ==> (x in left <==> x !in d)
  }

  /** Deleting place e moves the elements behind it out of place. */
  lemma {:induction false} OutOfPlace(s: seq<nat>, b: nat, e: nat, m: nat)
    requires InPlace(s, b) && 1 <= e < m <= b
    ensures
      var rest := Deleted(s, e);
      Increasing(rest) && |rest| == |s| - 1 && (m <= |rest| ==> rest[m - 1] > m)
  {
    DeletedIncreasing(s, e);
    if m < |s| {
      DeletedAt(s, e, m - 1);
      assert s[m - 1] == m && s[m - 1] < s[m];
    }
  }

  lemma {:induction false} SplitLast(d: seq<nat>)
    requires d != []
    ensures d == d[..|d| - 1] + [Last(d)]
    ensures Last(d) in d && forall x :: x in d <==> x in d[..|d| - 1] || x == Last(d)
  {
    assert d == d[..|d| - 1] + [Last(d)];
  }

  lemma {:induction false} Greatest(d: seq<nat>, b: nat) returns (m: nat)
    requires Between(d, b) && d != []
    ensures m in d && Between(d, m)
  {
    m := Last(d);
    SplitLast(d);
    var front := d[..|d| - 1];
    if front != [] {
      assert forall x :: x in front ==> x in d;
      var n := Greatest(front, b);
      if n > m {
        m := n;
      }
    }
  }

  /** A greatest number that is yet to come would hit an element that d does not name. */
  lemma {:induction false} GreatestIsLast(s: seq<nat>, b: nat, d: seq<nat>, m: nat)
    requires InPlace(s, b) && Between(d, m) && m in d && m <= b
    requires |AllDeleted(s, d)| + |d| == |s| && WithoutNamed(AllDeleted(s, d), s, d)
    ensures m == Last(d)
  {
    var e, front := Last(d), d[..|d| - 1];
    SplitLast(d);
    if e < m {
      var rest := Deleted(s, e);
      OutOfPlace(s, b, e, m);
      var v := HitsBeyond(rest, front, m);
      DeletedIncreasing(s, e);
      assert false;
    }
  }

  lemma {:induction false} FrontBetween(d: seq<nat>, b: nat)
    requires Between(d, b) && NoRepeats(d) && d != [] && Between(d, Last(d))
    ensures 1 <= Last(d) <= b && Between(d[..|d| - 1], Last(d) - 1) && NoRepeats(d[..|d| - 1])
  {
    SplitLast(d);
    var front := d[..|d| - 1];
    forall x | x in front
      ensures 1 <= x <= Last(d) - 1
    {
      var i :| 0 <= i < |front| && front[i] == x;
      assert d[i] == x && x in d && d[|d| - 1] == Last(d);
    }
  }

  lemma {:induction false} RestInPlace(s: seq<nat>, b: nat, e: nat)
    requires InPlace(s, b) && 1 <= e <= b
    ensures InPlace(Deleted(s, e), e - 1) && |Deleted(s, e)| == |s| - 1
    ensures forall x :: x in Deleted(s, e) ==> x in s && x != e
  {
    DeletedIncreasing(s, e);
    assert s[e - 1] == e;
  }

  /** What is left of s is left of the rest, when the last number has taken its element. */
  lemma {:induction false} RestWithoutNamed(left: seq<nat>, s: seq<nat>, rest: seq<nat>, d: seq<nat>)
    requires d != [] && WithoutNamed(left, s, d) && forall x :: x in rest ==> x in s && x != Last(d)
    ensures WithoutNamed(left, rest, d[..|d| - 1])
  {
    SplitLast(d);
  }

  /** If exactly the named elements go, the numbers ascend. */
  lemma {:induction false} OnlyAscending(s: seq<nat>, left: seq<nat>, b: nat, d: seq<nat>)
    requires InPlace(s, b) && Between(d, b) && NoRepeats(d)
    requires left == AllDeleted(s, d) && |left| + |d| == |s| && WithoutNamed(left, s, d)
    ensures Ascending(d, b)
    decreases |d|
  {
    if d != [] {
      var e, front := Last(d), d[..|d| - 1];
      var m := Greatest(d, b);
      GreatestIsLast(s, b, d, m);
      FrontBetween(d, b);
      RestInPlace(s, b, e);
      RestWithoutNamed(left, s, Deleted(s, e), d);
      OnlyAscending(Deleted(s, e), left, e - 1, front);
      AscendingMore(front, e, b, d);
    }
  }

  lemma {:induction false} AscendingMore(front: seq<nat>, e: nat, b: nat, d: seq<nat>)
    requires 1 <= e <= b && Ascending(front, e - 1) && d != [] && front == d[..|d| - 1] && e == Last(d)
    ensures Ascending(d, b)
  {
    SplitLast(d);
  }

  lemma {:induction false} AscendingEnds(d: seq<nat>, n: nat)
    requires n > 0 && Ascending(d, n)
    ensures if n in d then d != [] && d == d[..|d| - 1] + [n] && Ascending(d[..|d| - 1], n - 1) else Ascending(d, n - 1)
  {
    if n in d {
      var i :| 0 <= i < |d| && d[i] == n;
      assert d[|d| - 1] <= n;
      assert i == |d| - 1;
    }
  }

  lemma {:induction false} NoneAscend(d: seq<nat>)
    ensures Ascending(d, 0) ==> d == []
  {
    assert d == [] || d[0] >= 0;
  }

  lemma {:induction false} TakesLast(s: seq<nat>, n: nat, d: seq<nat>)
    requires n > 0 && d != [] && d == d[..|d| - 1] + [n] && s == Numbers(n)
    ensures AllDeleted(s, d) == AllDeleted(Numbers(n - 1), d[..|d| - 1])
  {
    assert Deleted(s, n) == Numbers(n - 1);
  }

  /** Ascending numbers take away exactly what they name. */
  lemma {:induction false} AscendingTakes(s: seq<nat>, n: nat, d: seq<nat>)
    requires Ascending(d, n) && s == Numbers(n)
    ensures AllDeleted(s, d) == Remaining(n, d)
    decreases n
  {
    if n == 0 {
      NoneAscend(d);
    } else {
      var t := Numbers(n - 1);
      AscendingEnds(d, n);
      if n in d {
        var rest := d[..|d| - 1];
        TakesLast(s, n, d);
        AscendingTakes(t, n - 1, rest);
        RemainingSame(n - 1, d, rest);
      } else {
        DeletedInFront(t, n, d);
        AscendingTakes(t, n - 1, d);
      }
    }
  }

  /** Deleting different numbers from the last to the first takes away what they name if and only if they ascend. */
  lemma {:induction false} TakesNamedIff(n: nat, d: seq<nat>)
    requires NoRepeats(d) && Between(d, n)
    ensures AllDeleted(Numbers(n), d) == Remaining(n, d) <==> Ascending(d, n)
  {
    if Ascending(d, n) {
      AscendingTakes(Numbers(n), n, d);
    } else if AllDeleted(Numbers(n), d) == Remaining(n, d) {
      NoneAppears(Numbers(n), d);
      RemainingCount(n, d);
      RemainingIs(n, d);
      OnlyAscending(Numbers(n), Remaining(n, d), n, d);
    }
  }

  /** The elements with these numbers. */
  function Select<T>(s: seq<T>, numbers: seq<nat>): seq<T>
    requires Between(numbers, |s|)
  {
    seq(|numbers|, i requires 0 <= i < |numbers| => assert numbers[i] in numbers; s[numbers[i] - 1])
  }

  lemma {:induction false} SelectDeleted<T>(s: seq<T>, numbers: seq<nat>, e: nat)
    requires Between(numbers, |s|)
    ensures Between(Deleted(numbers, e), |s|)
    ensures Deleted(Select(s, numbers), e) == Select(s, Deleted(numbers, e))
  {
    forall x | x in Deleted(numbers, e)
      ensures x in numbers
    {
    }
  }

  /** Deleting by number does not look at the elements. */
  lemma {:induction false} DeletingSelects<T>(s: seq<T>, numbers: seq<nat>, d: seq<nat>)
    requires Between(numbers, |s|)
    ensures Between(AllDeleted(numbers, d), |s|)
    ensures AllDeleted(Select(s, numbers), d) == Select(s, AllDeleted(numbers, d))
    decreases |d|
  {
    if d != [] {
      SelectDeleted(s, numbers, Last(d));
      DeletingSelects(s, Deleted(numbers, Last(d)), d[..|d| - 1]);
    }
  }

  lemma {:induction false} SelectMore<T>(s: seq<T>, numbers: seq<nat>, k: nat)
    requires Between(numbers, |s|) && 1 <= k <= |s|
    ensures Between(numbers + [k], |s|) && Select(s, numbers + [k]) == Select(s, numbers) + [s[k - 1]]
  {
  }

  predicate AllDifferent<T(==)>(s: seq<T>) {
    forall i, j :: 0 <= i < j < |s| ==> s[i] != s[j]
  }

  lemma {:induction false} SelectSame<T>(s: seq<T>, a: seq<nat>, b: seq<nat>)
    requires AllDifferent(s) && Between(a, |s|) && Between(b, |s|)
    requires Select(s, a) == Select(s, b)
    ensures a == b
  {
    assert |a| == |Select(s, a)| == |b|;
    forall i | 0 <= i < |a|
      ensures a[i] == b[i]
    {
      assert Select(s, a)[i] == Select(s, b)[i];
      assert a[i] in a && b[i] in b;
    }
  }

  /** Some new sub-packet is to supersede o. */
  predicate Superseded(bothMerged: bool, size: nat, news: seq<Sub>, o: Sub) {
    exists n :: n in news && Hit(bothMerged, size, n, o)
  }

  /** The old sub-packets that none of the new ones is to supersede, in their order. */
  function Unsuperseded(bothMerged: bool, size: nat, news: seq<Sub>, olds: seq<Sub>): seq<Sub> {
    if olds == [] then []
    else Unsuperseded(bothMerged, size, news, olds[..|olds| - 1])
         + if Superseded(bothMerged, size, news, Last(olds)) then [] else [Last(olds)]
  }

  lemma {:induction false} HitsAre(bothMerged: bool, size: nat, n: Sub, olds: seq<Sub>)
    ensures forall k :: k in Hits(bothMerged, size, n, olds) <==> 1 <= k <= |olds| && Hit(bothMerged, size, n, olds[k - 1])
  {
    if olds != [] {
      HitsAre(bothMerged, size, n, olds[..|olds| - 1]);
    }
  }

  lemma {:induction false} AllHitsAre(bothMerged: bool, size: nat, news: seq<Sub>, olds: seq<Sub>)
    ensures forall k :: k in AllHits(bothMerged, size, news, olds)
                   <==> 1 <= k <= |olds| && Superseded(bothMerged, size, news, olds[k - 1])
  {
    if news != [] {
      AllHitsAre(bothMerged, size, news[..|news| - 1], olds);
      HitsAre(bothMerged, size, Last(news), olds);
      assert news == news[..|news| - 1] + [Last(news)];
    }
  }

  lemma {:induction false} Recorded(bothMerged: bool, size: nat, news: seq<Sub>, olds: seq<Sub>, m: nat)
    requires 1 <= m <= |olds|
    ensures m in AllHits(bothMerged, size, news, olds) <==> Superseded(bothMerged, size, news, olds[m - 1])
  {
    AllHitsAre(bothMerged, size, news, olds);
  }

  /** One number more, if it is not among those that go. */
  lemma {:induction false} RemainingSelected(olds: seq<Sub>, d: seq<nat>, k: nat)
    requires k < |olds| && Between(Remaining(k, d), |olds|)
    ensures Between(Remaining(k + 1, d), |olds|)
    ensures Select(olds, Remaining(k + 1, d)) == Select(olds, Remaining(k, d)) + if k + 1 in d then [] else [olds[k]]
  {
    var left := Remaining(k, d);
    SelectMore(olds, left, k + 1);
    assert Remaining(k + 1, d) == if k + 1 in d then left + [] else left + [k + 1];
  }

  lemma {:induction false} UnsupersededSelected(bothMerged: bool, size: nat, news: seq<Sub>, olds: seq<Sub>, m: nat)
    requires m <= |olds|
    ensures
      var left := Remaining(m, AllHits(bothMerged, size, news, olds));
      Between(left, |olds|) && Select(olds, left) == Unsuperseded(bothMerged, size, news, olds[..m])
  {
    if m != 0 {
      var k, d := m - 1, AllHits(bothMerged, size, news, olds);
      UnsupersededSelected(bothMerged, size, news, olds, k);
      Recorded(bothMerged, size, news, olds, m);
      UnsupersededMore(bothMerged, size, news, olds, k);
      RemainingSelected(olds, d, k);
    }
  }

  lemma {:induction false} UnsupersededMore(bothMerged: bool, size: nat, news: seq<Sub>, olds: seq<Sub>, k: nat)
    requires k < |olds|
    ensures Unsuperseded(bothMerged, size, news, olds[..k + 1]) ==
            Unsuperseded(bothMerged, size, news, olds[..k])
            + if Superseded(bothMerged, size, news, olds[k]) then [] else [olds[k]]
  {
    assert olds[..k + 1][..k] == olds[..k] && Last(olds[..k + 1]) == olds[k];
  }

  /** No old sub-packet is recorded for two new ones. */
  predicate RecordedOnce(bothMerged: bool, size: nat, news: seq<Sub>, olds: seq<Sub>) {
    forall i, j, k ::
      0 <= i < j < |news| && 0 <= k < |olds| && Hit(bothMerged, size, news[i], olds[k])
      ==> !Hit(bothMerged, size, news[j], olds[k])
  }

  lemma {:induction false} SameOldSameKey(bothMerged: bool, size: nat, n: Sub, m: Sub, o: Sub)
    requires size > 0
    ensures Hit(bothMerged, size, n, o) && Hit(bothMerged, size, m, o) ==> Matches(size, n.payload, m.payload)
  {
  }

  /** So it is if the new ones have different keys of a fixed size. */
  lemma {:induction false} DifferentKeysRecordOnce(bothMerged: bool, size: nat, news: seq<Sub>, olds: seq<Sub>)
    requires size > 0 && KeysDistinct(size, news)
    ensures RecordedOnce(bothMerged, size, news, olds)
  {
    forall i, j, k | 0 <= i < j < |news| && 0 <= k < |olds| && Hit(bothMerged, size, news[i], olds[k])
      ensures !Hit(bothMerged, size, news[j], olds[k])
    {
      SameOldSameKey(bothMerged, size, news[i], news[j], olds[k]);
    }
  }

  lemma {:induction false} NoRepeatsJoin(a: seq<nat>, b: seq<nat>)
    requires NoRepeats(a) && NoRepeats(b) && forall x :: x in a ==> x !in b
    ensures NoRepeats(a + b)
  {
    var d := a + b;
    forall i, j | 0 <= i < j < |d|
      ensures d[i] != d[j]
    {
      if i < |a| <= j {
        assert a[i] in a && b[j - |a|] in b;
      }
    }
  }

  lemma {:induction false} RecordedFor(bothMerged: bool, size: nat, news: seq<Sub>, olds: seq<Sub>, x: nat) returns (i: nat)
    requires x in AllHits(bothMerged, size, news, olds)
    ensures 1 <= x <= |olds| && i < |news| && Hit(bothMerged, size, news[i], olds[x - 1])
  {
    AllHitsAre(bothMerged, size, news, olds);
    var n :| n in news && Hit(bothMerged, size, n, olds[x - 1]);
    i :| 0 <= i < |news| && news[i] == n;
  }

  lemma {:induction false} AllHitsDiffer(bothMerged: bool, size: nat, news: seq<Sub>, olds: seq<Sub>)
    requires RecordedOnce(bothMerged, size, news, olds)
    ensures NoRepeats(AllHits(bothMerged, size, news, olds))
  {
    if news != [] {
      var front, last := news[..|news| - 1], Last(news);
      var a, b := AllHits(bothMerged, size, front, olds), Hits(bothMerged, size, last, olds);
      AllHitsDiffer(bothMerged, size, front, olds);
      HitsAscend(bothMerged, size, last, olds);
      forall k | k in a
        ensures k !in b
      {
        var i := RecordedFor(bothMerged, size, front, olds, k);
        HitsAre(bothMerged, size, last, olds);
        assert news[i] == front[i] && news[|news| - 1] == last;
      }
      NoRepeatsJoin(a, b);
    }
  }

  /** What a later new sub-packet is to supersede stands behind what an earlier one is to supersede. */
  predicate SameOrder(bothMerged: bool, size: nat, news: seq<Sub>, olds: seq<Sub>) {
    forall i, j, k, l ::
      0 <= i < j < |news| && 0 <= k < |olds| && 0 <= l < |olds|
      && Hit(bothMerged, size, news[i], olds[k]) && Hit(bothMerged, size, news[j], olds[l])
      ==> k < l
  }

  /** Every number in a is less than every number in b. */
  predicate AllLess(a: seq<nat>, b: seq<nat>) {
    forall x, y :: x in a && y in b ==> x < y
  }

  lemma {:induction false} AscendingParts(a: seq<nat>, b: seq<nat>, n: nat)
    requires Ascending(a + b, n)
    ensures Ascending(a, n) && Ascending(b, n) && AllLess(a, b)
  {
    var d := a + b;
    assert d[..|a|] == a;
    forall l | 0 <= l < |b|
      ensures b[l] == d[|a| + l] && 1 <= b[l] <= n
    {
    }
    forall x, y | x in a && y in b
      ensures x < y
    {
      var k, l :| 0 <= k < |a| && a[k] == x && 0 <= l < |b| && b[l] == y;
      assert d[k] == x && d[|a| + l] == y;
    }
  }

  lemma {:induction false} AscendingJoin(a: seq<nat>, b: seq<nat>, n: nat)
    requires Ascending(a, n) && Ascending(b, n) && AllLess(a, b)
    ensures Ascending(a + b, n)
  {
    var d := a + b;
    forall k, l | 0 <= k < l < |d|
      ensures d[k] < d[l]
    {
      if k < |a| <= l {
        assert a[k] in a && b[l - |a|] in b;
      }
    }
  }

  lemma {:induction false} OrderParts(bothMerged: bool, size: nat, news: seq<Sub>, olds: seq<Sub>)
    requires news != [] && SameOrder(bothMerged, size, news, olds)
    ensures SameOrder(bothMerged, size, news[..|news| - 1], olds)
    ensures AllLess(AllHits(bothMerged, size, news[..|news| - 1], olds), Hits(bothMerged, size, Last(news), olds))
  {
    var front, last := news[..|news| - 1], Last(news);
    forall x, y | x in AllHits(bothMerged, size, front, olds) && y in Hits(bothMerged, size, last, olds)
      ensures x < y
    {
      HitsAre(bothMerged, size, last, olds);
      var i := RecordedFor(bothMerged, size, front, olds, x);
      assert front[i] == news[i] && news[|news| - 1] == last;
    }
  }

  lemma {:induction false} OneRecorded(bothMerged: bool, size: nat, n: Sub, olds: seq<Sub>, l: nat, m: nat)
    requires l < |olds| && m == l + 1
    ensures m in Hits(bothMerged, size, n, olds) <==> Hit(bothMerged, size, n, olds[l])
  {
    HitsAre(bothMerged, size, n, olds);
  }

  lemma {:induction false} LessAsRecorded(bothMerged: bool, size: nat, front: seq<Sub>, last: Sub,
                                          olds: seq<Sub>, i: nat, k: nat, l: nat)
    requires AllLess(AllHits(bothMerged, size, front, olds), Hits(bothMerged, size, last, olds))
    requires i < |front| && k < |olds| && l < |olds|
    requires Hit(bothMerged, size, front[i], olds[k]) && Hit(bothMerged, size, last, olds[l])
    ensures k < l
  {
    assert front[i] in front && Superseded(bothMerged, size, front, olds[k]);
    var x, y := k + 1, l + 1;
    Recorded(bothMerged, size, front, olds, x);
    OneRecorded(bothMerged, size, last, olds, l, y);
  }

  lemma {:induction false} OrderJoin(bothMerged: bool, size: nat, news: seq<Sub>, olds: seq<Sub>)
    requires news != [] && SameOrder(bothMerged, size, news[..|news| - 1], olds)
    requires AllLess(AllHits(bothMerged, size, news[..|news| - 1], olds), Hits(bothMerged, size, Last(news), olds))
    ensures SameOrder(bothMerged, size, news, olds)
  {
    var front, last := news[..|news| - 1], Last(news);
    forall i, j, k, l |
      0 <= i < j < |news| && 0 <= k < |olds| && 0 <= l < |olds|
      && Hit(bothMerged, size, news[i], olds[k]) && Hit(bothMerged, size, news[j], olds[l])
      ensures k < l
    {
      assert front[i] == news[i];
      if j < |front| {
        assert front[j] == news[j];
      } else {
        LessAsRecorded(bothMerged, size, front, last, olds, i, k, l);
      }
    }
  }

  /** The recorded numbers ascend if and only if the order is the same. */
  lemma {:induction false} SameOrderAscends(bothMerged: bool, size: nat, news: seq<Sub>, olds: seq<Sub>)
    ensures SameOrder(bothMerged, size, news, olds) <==> Ascending(AllHits(bothMerged, size, news, olds), |olds|)
  {
    if news != [] {
      var front, last, n := news[..|news| - 1], Last(news), |olds|;
      var a, b := AllHits(bothMerged, size, front, olds), Hits(bothMerged, size, last, olds);
      SameOrderAscends(bothMerged, size, front, olds);
      HitsAscend(bothMerged, size, last, olds);
      if SameOrder(bothMerged, size, news, olds) {
        OrderParts(bothMerged, size, news, olds);
        AscendingJoin(a, b, n);
      } else if Ascending(a + b, n) {
        AscendingParts(a, b, n);
        OrderJoin(bothMerged, size, news, olds);
      }
    }
  }

  /** What is left and what should be left, as numbers. */
  lemma {:induction false} AsNumbers(bothMerged: bool, size: nat, news: seq<Sub>, olds: seq<Sub>, d: seq<nat>)
    requires d == AllHits(bothMerged, size, news, olds)
    ensures Between(d, |olds|)
    ensures Between(AllDeleted(Numbers(|olds|), d), |olds|) && Between(Remaining(|olds|, d), |olds|)
    ensures AllDeleted(olds, d) == Select(olds, AllDeleted(Numbers(|olds|), d))
    ensures Unsuperseded(bothMerged, size, news, olds) == Select(olds, Remaining(|olds|, d))
  {
    var n := |olds|;
    AllHitsAre(bothMerged, size, news, olds);
    assert Select(olds, Numbers(n)) == olds;
    DeletingSelects(olds, Numbers(n), d);
    assert olds[..n] == olds;
    UnsupersededSelected(bothMerged, size, news, olds, n);
  }

  /**
   * Main result for any arrival at a container of different sub-packets, none of which is
   * recorded twice: what ComparePackets leaves is what no new sub-packet supersedes, if and
   * only if the old sub-packets to go stand in the order of the new ones that supersede them.
   */
  lemma {:induction false} ArrivalFiltersIff(bothMerged: bool, size: nat, news: seq<Sub>, olds: seq<Sub>)
    requires AllDifferent(olds) && RecordedOnce(bothMerged, size, news, olds)
    ensures AllDeleted(olds, Capped(AllHits(bothMerged, size, news, olds), |olds|)) == Unsuperseded(bothMerged, size, news, olds)
       <==> SameOrder(bothMerged, size, news, olds)
  {
    var n, d := |olds|, AllHits(bothMerged, size, news, olds);
    AsNumbers(bothMerged, size, news, olds, d);
    AllHitsDiffer(bothMerged, size, news, olds);
    RemainingCount(n, d);
    TakesNamedIff(n, d);
    SameOrderAscends(bothMerged, size, news, olds);
    if AllDeleted(olds, d) == Unsuperseded(bothMerged, size, news, olds) {
      SelectSame(olds, AllDeleted(Numbers(n), d), Remaining(n, d));
    }
  }

  /** New sub-packets with different keys of a fixed size are never recorded for the same old one. */
  lemma {:induction false} KeyedArrivalFiltersIff(bothMerged: bool, size: nat, news: seq<Sub>, olds: seq<Sub>)
    requires size > 0 && KeysDistinct(size, news) && AllDifferent(olds)
    ensures AllDeleted(olds, Capped(AllHits(bothMerged, size, news, olds), |olds|)) == Unsuperseded(bothMerged, size, news, olds)
       <==> SameOrder(bothMerged, size, news, olds)
  {
    DifferentKeysRecordOnce(bothMerged, size, news, olds);
    ArrivalFiltersIff(bothMerged, size, news, olds);
  }

  lemma {:induction false} AllHitsOfTwo(bothMerged: bool, size: nat, m: Sub, n: Sub, olds: seq<Sub>)
    ensures AllHits(bothMerged, size, [m, n], olds) == Hits(bothMerged, size, m, olds) + Hits(bothMerged, size, n, olds)
  {
    assert [m, n][..1] == [m] && [m][..0] == [];
    assert AllHits(bothMerged, size, [m], olds) == [] + Hits(bothMerged, size, m, olds);
  }

  lemma {:induction false} HitsOfTwo(bothMerged: bool, size: nat, n: Sub, o: Sub, p: Sub)
    requires !Hit(bothMerged, size, n, o) && Hit(bothMerged, size, n, p)
    ensures Hits(bothMerged, size, n, [o, p]) == [2]
  {
    assert [o, p][..1] == [o] && [o][..0] == [];
    assert Hits(bothMerged, size, n, [o]) == [];
  }

  lemma {:induction false} OneOfTwoDeleted<T>(o: T, p: T)
    ensures AllDeleted([o, p], [2, 2]) == [o]
  {
    assert [2, 2][..1] == [2] && [2][..0] == [];
    assert Deleted([o, p], 2) == [o] && Deleted([o], 2) == [o];
    assert AllDeleted([o], [2]) == [o];
  }

  lemma {:induction false} FirstOfTwoLeft(bothMerged: bool, size: nat, news: seq<Sub>, o: Sub, p: Sub)
    requires !Superseded(bothMerged, size, news, o) && Superseded(bothMerged, size, news, p)
    ensures Unsuperseded(bothMerged, size, news, [o, p]) == [o]
  {
    var olds := [o, p];
    UnsupersededMore(bothMerged, size, news, olds, 0);
    UnsupersededMore(bothMerged, size, news, olds, 1);
    assert olds[..0] == [] && olds[..2] == olds;
  }

  /** Both new sub-packets of two are to supersede the last of two old ones, and no other. */
  predicate LastTwice(bothMerged: bool, size: nat, news: seq<Sub>, olds: seq<Sub>) {
    && |news| == |olds| == 2
    && forall i :: 0 <= i < 2 ==> !Hit(bothMerged, size, news[i], olds[0]) && Hit(bothMerged, size, news[i], olds[1])
  }

  lemma {:induction false} LastTwiceHits(bothMerged: bool, size: nat, news: seq<Sub>, olds: seq<Sub>)
    requires LastTwice(bothMerged, size, news, olds)
    ensures AllHits(bothMerged, size, news, olds) == [2, 2]
  {
    var m, n := news[0], news[1];
    AllHitsOfTwo(bothMerged, size, m, n, olds);
    HitsOfTwo(bothMerged, size, m, olds[0], olds[1]);
    HitsOfTwo(bothMerged, size, n, olds[0], olds[1]);
    assert news == [m, n] && olds == [olds[0], olds[1]];
  }

  /** With an old sub-packet recorded twice the order is enough but not needed. */
  lemma {:induction false} RecordedTwiceMayFilter(bothMerged: bool, size: nat, news: seq<Sub>, olds: seq<Sub>)
    requires LastTwice(bothMerged, size, news, olds)
    ensures !SameOrder(bothMerged, size, news, olds)
    ensures AllDeleted(olds, Capped(AllHits(bothMerged, size, news, olds), |olds|)) == Unsuperseded(bothMerged, size, news, olds)
  {
    var o, p := olds[0], olds[1];
    assert olds == [o, p] && Hit(bothMerged, size, news[0], p) && Hit(bothMerged, size, news[1], p);
    LastTwiceHits(bothMerged, size, news, olds);
    OneOfTwoDeleted(o, p);
    assert news[0] in news && !Superseded(bothMerged, size, news, o) && Superseded(bothMerged, size, news, p);
    FirstOfTwoLeft(bothMerged, size, news, o, p);
  }

  /** The order is enough, whatever is recorded twice elsewhere: nothing then is. */
  lemma {:induction false} SameOrderFilters(bothMerged: bool, size: nat, news: seq<Sub>, olds: seq<Sub>)
    requires AllDifferent(olds) && SameOrder(bothMerged, size, news, olds)
    ensures AllDeleted(olds, Capped(AllHits(bothMerged, size, news, olds), |olds|)) == Unsuperseded(bothMerged, size, news, olds)
  {
    assert RecordedOnce(bothMerged, size, news, olds);
    ArrivalFiltersIff(bothMerged, size, news, olds);
  }
}
