/** Collapsing expiry times that lie close together into levels, and why the greedy way is the best. */
module ExpiryLevels {
  import opened Ordering

  const TOLERANCE: real := 2.0

  predicate Geq(a: real, b: real) {
    a >= b
  }

  lemma GeqOrder()
    ensures TotalOrder(Geq)
  {
  }

  /** Each level lies more than two seconds below the one before. */
  predicate Descending(levels: seq<real>) {
    forall i, j :: 0 <= i < j < |levels| ==> levels[i] - levels[j] > 2.0
  }

  /** `x` lies at most two seconds below `l`. */
  predicate Reaches(l: real, x: real) {
    0.0 <= l - x <= 2.0
  }

  /** Every time lies within two seconds below some level. */
  ghost predicate Covered(levels: seq<real>, times: seq<real>) {
    forall x :: x in times ==> exists l :: l in levels && Reaches(l, x)
  }

  predicate Within(levels: seq<real>, times: seq<real>) {
    forall l :: l in levels ==> l in times
  }

  ghost predicate LevelsOf(levels: seq<real>, times: seq<real>) {
    Descending(levels) && Covered(levels, times) && Within(levels, times)
  }

  /** `_collapse_expiry_levels`. */
  method CollapseExpiryLevels(times: seq<real>) returns (levels: seq<real>)
    ensures LevelsOf(levels, times)
  {
    hide LevelsOf, Sort;
    levels := [];
    var sorted := Sort(Geq, times);
    GeqOrder();
    SortSorted(Geq, times);
    NoLevels(sorted);
    for k := 0 to |sorted|
      invariant LevelsOf(levels, sorted[..k])
    {
      var expiry := sorted[k];
      NextTime(levels, sorted, k);
      if levels == [] || levels[|levels| - 1] - expiry > TOLERANCE {
        levels := levels + [expiry];
      }
    }
    SortedLevels(levels, times);
  }

  lemma NoLevels(sorted: seq<real>)
    ensures LevelsOf([], sorted[..0])
  {
  }

  lemma SortedLevels(levels: seq<real>, times: seq<real>)
    requires LevelsOf(levels, Sort(Geq, times)[..|Sort(Geq, times)|])
    ensures LevelsOf(levels, times)
  {
    var sorted := Sort(Geq, times);
    SortMultiset(Geq, times);
    assert sorted[..|sorted|] == sorted;
    forall x ensures x in sorted <==> x in times {
      assert x in multiset(sorted) <==> x in multiset(times);
    }
  }

  lemma LastIsLeast(levels: seq<real>, l: real)
    requires Descending(levels) && l in levels
    ensures levels[|levels| - 1] <= l
  {
  }

  lemma DescendingSnoc(levels: seq<real>, x: real)
    requires Descending(levels) && (levels != [] ==> levels[|levels| - 1] - x > TOLERANCE)
    ensures Descending(levels + [x])
  {
    var more := levels + [x];
    forall i, j | 0 <= i < j < |more| ensures more[i] - more[j] > TOLERANCE {
      if j == |levels| {
        LastIsLeast(levels, levels[i]);
      }
    }
  }

  lemma CoveredSnoc(levels: seq<real>, more: seq<real>, times: seq<real>, x: real, l: real)
    requires Covered(levels, times) && (forall k :: k in levels ==> k in more) && l in more && Reaches(l, x)
    ensures Covered(more, times + [x])
  {
    hide Reaches;
  }

  /** One time more, in descending order. */
  lemma NextTime(levels: seq<real>, sorted: seq<real>, k: nat)
    requires k < |sorted| && Sorted(Geq, sorted) && LevelsOf(levels, sorted[..k])
    ensures LevelsOf(
      if levels == [] || levels[|levels| - 1] - sorted[k] > TOLERANCE then levels + [sorted[k]] else levels,
      sorted[..k + 1])
  {
    hide Descending, Covered;
    var x, times := sorted[k], sorted[..k];
    assert sorted[..k + 1] == times + [x];
    if levels == [] || levels[|levels| - 1] - x > TOLERANCE {
      DescendingSnoc(levels, x);
      CoveredSnoc(levels, levels + [x], times, x, x);
    } else {
      var l := levels[|levels| - 1];
      assert l in levels;
      assert l in times;
      CoveredSnoc(levels, levels, times, x, l);
    }
  }

  // ----- the result is determined by these properties -----

  /** After equal levels, the next level of `b` is not below that of `a`. */
  lemma NextLevelReached(a: seq<real>, b: seq<real>, times: seq<real>, k: nat)
    requires LevelsOf(a, times) && LevelsOf(b, times)
    requires k < |a| && k <= |b| && forall i :: 0 <= i < k ==> a[i] == b[i]
    ensures k < |b| && b[k] >= a[k]
  {
    hide Reaches, Descending, Covered;
    assert a[k] in a;
    var n := CoveringLevel(b, times, a[k]);
    ReachedLater(a, b, k, n);
  }

  lemma ReachedLater(a: seq<real>, b: seq<real>, k: nat, n: nat)
    requires Descending(a) && Descending(b) && k < |a| && n < |b| && Reaches(b[n], a[k])
    requires k <= |b| && forall i :: 0 <= i < k ==> a[i] == b[i]
    ensures k <= n && b[k] >= a[k]
  {
    Gap(a, n, k);
    Gap(b, k, n);
  }

  lemma Gap(levels: seq<real>, i: nat, j: nat)
    requires Descending(levels)
    ensures i < j < |levels| ==> levels[i] - levels[j] > TOLERANCE
  {
  }

  /** The level that covers a time. */
  lemma CoveringLevel(levels: seq<real>, times: seq<real>, x: real) returns (n: nat)
    requires Covered(levels, times) && x in times
    ensures n < |levels| && Reaches(levels[n], x)
  {
    hide Reaches;
    var l :| l in levels && Reaches(l, x);
    n :| n < |levels| && levels[n] == l;
  }

  /** There is one list of levels. */
  lemma {:induction false} LevelsUnique(a: seq<real>, b: seq<real>, times: seq<real>, k: nat)
    requires LevelsOf(a, times) && LevelsOf(b, times) && k <= |a|
    ensures k <= |b| && forall i :: 0 <= i < k ==> a[i] == b[i]
  {
    hide LevelsOf;
    if k > 0 {
      LevelsUnique(a, b, times, k - 1);
      NextLevelReached(a, b, times, k - 1);
      NextLevelReached(b, a, times, k - 1);
    }
  }

  /** Whatever the order of the input, and however often a time is repeated. */
  lemma InputOrderIrrelevant(a: seq<real>, b: seq<real>, xs: seq<real>, ys: seq<real>)
    requires LevelsOf(a, xs) && LevelsOf(b, ys)
    requires forall x :: x in xs <==> x in ys
    ensures a == b
  {
    assert LevelsOf(b, xs);
    hide LevelsOf;
    LevelsUnique(a, b, xs, |a|);
    LevelsUnique(b, a, xs, |b|);
  }

  // ----- optimality -----

  /** Times that are pairwise more than two seconds apart. */
  predicate Separated(s: seq<real>) {
    forall i, j :: 0 <= i < j < |s| ==> s[i] - s[j] > 2.0 || s[j] - s[i] > 2.0
  }

  /** The closed interval of two seconds that starts at `c` contains `x`. */
  predicate Contains(c: real, x: real) {
    c <= x <= c + 2.0
  }

  /** The intervals that start at these places contain all times. */
  ghost predicate CoveredByIntervals(starts: seq<real>, times: seq<real>) {
    forall x :: x in times ==> exists i: nat :: i < |starts| && Contains(starts[i], x)
  }

  lemma {:induction false} Pigeonhole(holes: seq<nat>, n: nat)
    requires forall i :: 0 <= i < |holes| ==> holes[i] < n
    requires forall i, j :: 0 <= i < j < |holes| ==> holes[i] != holes[j]
    ensures |holes| <= n
    decreases n
  {
    assert holes != [] ==> holes[0] < n;
    if holes == [] {
    } else if k :| 0 <= k < |holes| && holes[k] == n - 1 {
      var rest := holes[..k] + holes[k + 1..];
      Pigeonhole(rest, n - 1);
    } else {
      Pigeonhole(holes, n - 1);
    }
  }

  /** The interval chosen for each of the first `n` times. */
  lemma {:induction false} ChooseIntervals(s: seq<real>, starts: seq<real>, n: nat) returns (holes: seq<nat>)
    requires CoveredByIntervals(starts, s) && n <= |s|
    ensures |holes| == n && forall i :: 0 <= i < n ==> holes[i] < |starts| && Contains(starts[holes[i]], s[i])
  {
    if n == 0 {
      holes := [];
    } else {
      holes := ChooseIntervals(s, starts, n - 1);
      assert s[n - 1] in s;
      var h: nat :| h < |starts| && Contains(starts[h], s[n - 1]);
      holes := holes + [h];
    }
  }

  /** Separated times need an interval each. */
  lemma SeparatedNeedIntervals(s: seq<real>, starts: seq<real>)
    requires Separated(s) && CoveredByIntervals(starts, s)
    ensures |s| <= |starts|
  {
    var holes := ChooseIntervals(s, starts, |s|);
    Pigeonhole(holes, |starts|);
  }

  /** The intervals that reach up to the levels. */
  function BelowLevels(levels: seq<real>): seq<real> {
    seq(|levels|, i requires 0 <= i < |levels| => levels[i] - TOLERANCE)
  }

  lemma LevelsCover(levels: seq<real>, times: seq<real>)
    requires Covered(levels, times)
    ensures CoveredByIntervals(BelowLevels(levels), times)
  {
    forall x | x in times ensures exists i: nat :: i < |BelowLevels(levels)| && Contains(BelowLevels(levels)[i], x) {
      var l :| l in levels && Reaches(l, x);
      var i: nat :| i < |levels| && levels[i] == l;
      assert Contains(BelowLevels(levels)[i], x);
    }
  }

  /** The number of levels is both the size of the largest separated selection of times and the
      least number of intervals that cover all times; the levels are such a selection, and the
      intervals below them such a cover. */
  lemma LevelsOptimal(levels: seq<real>, times: seq<real>)
    requires LevelsOf(levels, times)
    ensures Separated(levels) && Within(levels, times)
    ensures forall s: seq<real> :: Separated(s) && Within(s, times) ==> |s| <= |levels|
    ensures CoveredByIntervals(BelowLevels(levels), times) && |BelowLevels(levels)| == |levels|
    ensures forall starts: seq<real> :: CoveredByIntervals(starts, times) ==> |levels| <= |starts|
  {
    LevelsCover(levels, times);
    forall s: seq<real> | Separated(s) && Within(s, times) ensures |s| <= |levels| {
      assert CoveredByIntervals(BelowLevels(levels), s);
      SeparatedNeedIntervals(s, BelowLevels(levels));
    }
    forall starts: seq<real> | CoveredByIntervals(starts, times) ensures |levels| <= |starts| {
      assert CoveredByIntervals(starts, levels);
      SeparatedNeedIntervals(levels, starts);
    }
  }
}
