/**
 * The interpolated percentile that the feature statistics, the alignment summaries and the
 * broker-clock inference all use.
 */
module Percentiles {
  import opened Sequences
  import opened Arithmetic

  predicate RealLeq(x: real, y: real) { x <= y }

  function Sorted(s: seq<real>): (r: seq<real>)
    ensures |r| == |s|
  {
    SortPermutes(s, RealLeq);
    SortBy(s, RealLeq)
  }

  lemma SortedOrder(s: seq<real>)
    ensures |Sorted(s)| == |s| && multiset(Sorted(s)) == multiset(s)
    ensures forall i, j :: 0 <= i <= j < |s| ==> Sorted(s)[i] <= Sorted(s)[j]
  {
    SortByIsSorted(s, RealLeq);
    SortPermutes(s, RealLeq);
    forall i, j | 0 <= i <= j < |s| ensures Sorted(s)[i] <= Sorted(s)[j] {
      if i < j { assert RealLeq(Sorted(s)[i], Sorted(s)[j]); }
    }
  }

  /** A missing value is dropped before anything is computed. */
  function Present(values: seq<Option<real>>): seq<real> {
    if values == [] then []
    else (if values[0].Some? then [values[0].value] else []) + Present(values[1..])
  }

  /** Exactly the missing values are dropped, and the order is kept. */
  lemma {:induction false} PresentKeepsValues(values: seq<Option<real>>)
    ensures |Present(values)| == |Filter(values, (v: Option<real>) => v.Some?)|
    ensures forall i :: 0 <= i < |Present(values)| ==> Filter(values, (v: Option<real>) => v.Some?)[i] == Some(Present(values)[i])
  {
    if values != [] { PresentKeepsValues(values[1..]); }
  }

  function Ceiling(k: real): int { if k.Floor as real == k then k.Floor else k.Floor + 1 }

  function Rank(n: nat, pct: real): real { (n - 1) as real * pct }

  ghost predicate RankOf(k: real, n: nat) { n > 0 && 0.0 <= k <= (n - 1) as real }

  lemma RankInRange(n: nat, pct: real)
    requires n > 0 && 0.0 <= pct <= 1.0
    ensures RankOf(Rank(n, pct), n)
  {
    var m := (n - 1) as real;
    SharesOf(m, pct, 1.0 - pct);
  }

  /** The two shares of a non-negative quantity are non-negative and add up to it. */
  lemma SharesOf(m: real, u: real, w: real)
    requires m >= 0.0 && u >= 0.0 && w >= 0.0 && u + w == 1.0
    ensures m * u >= 0.0 && m * w >= 0.0 && m * u + m * w == m
  {
    ProductNonNegative(m, u);
    ProductNonNegative(m, w);
    var mu, mw := SplitByShares(m, u, w);
  }

  lemma RankMonotone(n: nat, p: real, q: real)
    requires n > 0 && p <= q
    ensures Rank(n, p) <= Rank(n, q)
  {
    var m := (n - 1) as real;
    ProductMonotone(p, q, m);
    Commutes(p, m);
    Commutes(q, m);
  }

  lemma Commutes(x: real, y: real)
    ensures x * y == y * x
  {
  }

  lemma RankBounds(k: real, n: nat)
    requires RankOf(k, n)
    ensures 0 <= k.Floor <= Ceiling(k) < n
  {
    if k.Floor >= n - 1 {
      assert k == (n - 1) as real;
    }
  }

  /** Linear interpolation at the fractional rank k of an ordered sample. */
  function Interpolate(arr: seq<real>, k: real): real
    requires RankOf(k, |arr|)
  {
    var f, c := k.Floor, Ceiling(k);
    RankBounds(k, |arr|);
    if f == c then arr[f]
    else arr[f] * (c as real - k) + arr[c] * (k - f as real)
  }

  function Percentile(values: seq<real>, pct: real): Option<real>
    requires 0.0 <= pct <= 1.0
  {
    if values == [] then None
    else if |values| == 1 then Some(values[0])
    else
      RankInRange(|values|, pct);
      Some(Interpolate(Sorted(values), Rank(|values|, pct)))
  }

  function PercentileOfColumn(values: seq<Option<real>>, pct: real): Option<real>
    requires 0.0 <= pct <= 1.0
  {
    Percentile(Present(values), pct)
  }

  ghost predicate Ordered(arr: seq<real>) {
    forall i, j :: 0 <= i <= j < |arr| ==> arr[i] <= arr[j]
  }

  lemma ConvexCombination(a: real, b: real, u: real, w: real)
    requires a <= b && 0.0 <= u && 0.0 <= w && u + w == 1.0
    ensures a <= a * u + b * w <= b
  {
    var au, aw := SplitByShares(a, u, w);
    var bu, bw := SplitByShares(b, u, w);
    var low, high := ScaledOrder(a, b, u);
    assert low == au && high == bu;
    low, high := ScaledOrder(a, b, w);
    assert low == aw && high == bw;
  }

  lemma ScaledOrder(x: real, y: real, factor: real) returns (low: real, high: real)
    requires x <= y && factor >= 0.0
    ensures low == x * factor && high == y * factor && low <= high
  {
    ProductMonotone(x, y, factor);
    low, high := x * factor, y * factor;
  }

  lemma SplitByShares(x: real, u: real, w: real) returns (xu: real, xw: real)
    requires u + w == 1.0
    ensures xu == x * u && xw == x * w && xu + xw == x
  {
    Distribute(x, u, w);
    TimesOne(x, u + w);
    xu, xw := x * u, x * w;
  }

  lemma TimesOne(x: real, one: real)
    requires one == 1.0
    ensures x * one == x
  {
  }

  /** The single-value shortcut agrees with the general formula. */
  lemma PercentileInterpolates(values: seq<real>, pct: real)
    requires values != [] && 0.0 <= pct <= 1.0
    ensures RankOf(Rank(|values|, pct), |values|)
    ensures Percentile(values, pct) == Some(Interpolate(Sorted(values), Rank(|values|, pct)))
  {
    RankInRange(|values|, pct);
    if |values| == 1 {
      OnlyRank(pct);
      assert Rank(|values|, pct) == 0.0;
      assert values[1..] == [] && SortBy(values[1..], RealLeq) == [];
      assert Sorted(values) == [values[0]];
      WholeRank(Sorted(values), 0.0);
    }
  }

  lemma OnlyRank(pct: real)
    ensures Rank(1, pct) == 0.0
  {
  }

  /** A whole rank picks an element. */
  lemma WholeRank(arr: seq<real>, k: real)
    requires RankOf(k, |arr|) && k.Floor as real == k
    ensures k.Floor < |arr| && Interpolate(arr, k) == arr[k.Floor]
  {
    RankBounds(k, |arr|);
  }

  /** The interpolated value lies between the two order statistics around its rank. */
  lemma BetweenNeighbours(arr: seq<real>, k: real)
    requires RankOf(k, |arr|) && Ordered(arr)
    ensures 0 <= k.Floor <= Ceiling(k) < |arr|
    ensures arr[k.Floor] <= Interpolate(arr, k) <= arr[Ceiling(k)]
  {
    RankBounds(k, |arr|);
    var f, c := k.Floor, Ceiling(k);
    if f != c {
      ConvexCombination(arr[f], arr[c], c as real - k, k - f as real);
    }
  }

  function CountAtMost(s: seq<real>, x: real): nat {
    |Filter(s, (y: real) => y <= x)|
  }

  function CountAtLeast(s: seq<real>, x: real): nat {
    |Filter(s, (y: real) => x <= y)|
  }

  lemma {:induction false} CountInOrdered(arr: seq<real>, x: real, i: nat)
    requires Ordered(arr) && i < |arr|
    ensures arr[i] <= x ==> CountAtMost(arr, x) >= i + 1
    ensures x <= arr[i] ==> CountAtLeast(arr, x) >= |arr| - i
    decreases |arr|
  {
    var lo, hi := (y: real) => y <= x, (y: real) => x <= y;
    assert arr == arr[..i + 1] + arr[i + 1..];
    assert arr == arr[..i] + arr[i..];
    if arr[i] <= x {
      FilterAppend(arr[..i + 1], arr[i + 1..], lo);
      FilterAll(arr[..i + 1], lo);
    }
    if x <= arr[i] {
      FilterAppend(arr[..i], arr[i..], hi);
      FilterAll(arr[i..], hi);
    }
  }

  lemma {:induction false} FilterPermutation(a: seq<real>, b: seq<real>, p: real -> bool)
    requires multiset(a) == multiset(b)
    ensures |Filter(a, p)| == |Filter(b, p)|
  {
    forall x ensures multiset(Filter(a, p))[x] == multiset(Filter(b, p))[x] {
      FilterMultiplicity(a, p, x);
      FilterMultiplicity(b, p, x);
    }
    assert multiset(Filter(a, p)) == multiset(Filter(b, p));
    assert |multiset(Filter(a, p))| == |Filter(a, p)|;
    assert |multiset(Filter(b, p))| == |Filter(b, p)|;
  }

  /**
   * An order-statistic characterisation that does not mention sorting: at least floor(k) + 1 of
   * the sample is at or below the result and at least n - ceil(k) of it is at or above.
   */
  lemma SplitsSampleAtRank(values: seq<real>, pct: real)
    requires values != [] && 0.0 <= pct <= 1.0
    ensures var k, r := Rank(|values|, pct), Percentile(values, pct).value;
            && CountAtMost(values, r) >= k.Floor + 1
            && CountAtLeast(values, r) >= |values| - Ceiling(k)
  {
    var arr, k := Sorted(values), Rank(|values|, pct);
    SortedOrder(values);
    PercentileInterpolates(values, pct);
    BetweenNeighbours(arr, k);
    var r := Interpolate(arr, k);
    CountInOrdered(arr, r, k.Floor);
    CountInOrdered(arr, r, Ceiling(k));
    FilterPermutation(values, arr, (y: real) => y <= r);
    FilterPermutation(values, arr, (y: real) => r <= y);
  }

  /** x is the j-th smallest value of the sample, counted from zero. */
  ghost predicate OrderStatistic(values: seq<real>, j: nat, x: real) {
    j < |values| && CountAtMost(values, x) >= j + 1 && CountAtLeast(values, x) >= |values| - j
  }

  lemma SortedIsOrderStatistic(values: seq<real>, j: nat)
    requires j < |values|
    ensures OrderStatistic(values, j, Sorted(values)[j])
  {
    var arr := Sorted(values);
    SortedOrder(values);
    CountInOrdered(arr, arr[j], j);
    FilterPermutation(values, arr, (y: real) => y <= arr[j]);
    FilterPermutation(values, arr, (y: real) => arr[j] <= y);
  }

  lemma OnSegment(lo: real, hi: real, k: real, f: real)
    ensures lo * (f + 1.0 - k) + hi * (k - f) == lo + (k - f) * (hi - lo)
  {
  }

  lemma InterpolateOnSegment(arr: seq<real>, k: real) returns (j: nat, lo: real, hi: real)
    requires RankOf(k, |arr|)
    ensures j == k.Floor && Ceiling(k) < |arr| && j < |arr| && lo == arr[j] && hi == arr[Ceiling(k)]
    ensures Interpolate(arr, k) == lo + (k - j as real) * (hi - lo)
  {
    RankBounds(k, |arr|);
    j := k.Floor;
    lo, hi := arr[j], arr[Ceiling(k)];
    if j as real == k {
      WholeRank(arr, k);
      assert hi - lo == 0.0;
    } else {
      OnSegment(lo, hi, k, j as real);
    }
  }

  lemma RankNeighbours(values: seq<real>, k: real) returns (j: nat, lo: real, hi: real)
    requires RankOf(k, |values|)
    ensures j as real <= k < j as real + 1.0
    ensures OrderStatistic(values, j, lo) && (j as real == k || OrderStatistic(values, j + 1, hi))
    ensures Interpolate(Sorted(values), k) == lo + (k - j as real) * (hi - lo)
  {
    j, lo, hi := InterpolateOnSegment(Sorted(values), k);
    SortedIsOrderStatistic(values, j);
    SortedIsOrderStatistic(values, Ceiling(k));
  }

  /**
   * The percentile lies on the straight line between the two order statistics next to the rank
   * k == (n - 1) * pct, in proportion to the fraction of the rank.
   */
  lemma PercentileIsLinear(values: seq<real>, pct: real) returns (k: real, j: nat, lo: real, hi: real)
    requires values != [] && 0.0 <= pct <= 1.0
    ensures k == (|values| - 1) as real * pct && j as real <= k < j as real + 1.0
    ensures OrderStatistic(values, j, lo) && (j as real == k || OrderStatistic(values, j + 1, hi))
    ensures Percentile(values, pct) == Some(lo + (k - j as real) * (hi - lo))
  {
    k := Rank(|values|, pct);
    PercentileInterpolates(values, pct);
    j, lo, hi := RankNeighbours(values, k);
  }

  lemma InSampleRange(values: seq<real>, pct: real, lo: real, hi: real)
    requires values != [] && 0.0 <= pct <= 1.0
    requires forall v :: v in values ==> lo <= v <= hi
    ensures lo <= Percentile(values, pct).value <= hi
  {
    var arr := Sorted(values);
    SortedOrder(values);
    PercentileInterpolates(values, pct);
    BetweenNeighbours(arr, Rank(|values|, pct));
    forall i | 0 <= i < |arr| ensures lo <= arr[i] <= hi {
      assert arr[i] in multiset(arr);
      assert arr[i] in values;
    }
  }

  lemma SegmentOrder(u: real, v: real, f: real, j: real, k: real)
    requires u <= v && j <= k
    ensures u * (f + 1.0 - j) + v * (j - f) <= u * (f + 1.0 - k) + v * (k - f)
  {
    ProductNonNegative(v - u, k - j);
    assert (v - u) * (k - j) == (u * (f + 1.0 - k) + v * (k - f)) - (u * (f + 1.0 - j) + v * (j - f));
  }

  lemma InterpolateMonotone(arr: seq<real>, j: real, k: real)
    requires Ordered(arr) && RankOf(j, |arr|) && RankOf(k, |arr|) && j <= k
    ensures Interpolate(arr, j) <= Interpolate(arr, k)
  {
    BetweenNeighbours(arr, j);
    BetweenNeighbours(arr, k);
    if j.Floor < k.Floor {
      assert arr[Ceiling(j)] <= arr[k.Floor];
    } else if j.Floor as real == j {
      WholeRank(arr, j);
    } else {
      WithinSegment(arr, j, k);
    }
  }

  lemma WithinSegment(arr: seq<real>, j: real, k: real)
    requires Ordered(arr) && RankOf(j, |arr|) && RankOf(k, |arr|) && j <= k
    requires j.Floor == k.Floor && j.Floor as real != j
    ensures Interpolate(arr, j) <= Interpolate(arr, k)
  {
    RankBounds(j, |arr|);
    RankBounds(k, |arr|);
    var f := j.Floor;
    assert Ceiling(j) == f + 1 && Ceiling(k) == f + 1;
    SegmentOrder(arr[f], arr[f + 1], f as real, j, k);
  }

  /** Raising the requested rank never lowers the answer. */
  lemma PercentileMonotone(values: seq<real>, p: real, q: real)
    requires values != [] && 0.0 <= p <= q <= 1.0
    ensures Percentile(values, p).value <= Percentile(values, q).value
  {
    SortedOrder(values);
    PercentileInterpolates(values, p);
    PercentileInterpolates(values, q);
    RankMonotone(|values|, p, q);
    InterpolateMonotone(Sorted(values), Rank(|values|, p), Rank(|values|, q));
  }

  lemma {:induction false} OrderedPermutationUnique(a: seq<real>, b: seq<real>)
    requires Ordered(a) && Ordered(b) && multiset(a) == multiset(b)
    ensures a == b
  {
    assert |a| == |multiset(a)| == |multiset(b)| == |b|;
    if a != [] {
      FirstIsLeast(a, b);
      FirstIsLeast(b, a);
      TailMultiset(a);
      TailMultiset(b);
      OrderedPermutationUnique(a[1..], b[1..]);
      assert a == [a[0]] + a[1..] && b == [b[0]] + b[1..];
    }
  }

  lemma FirstIsLeast(a: seq<real>, b: seq<real>)
    requires Ordered(a) && multiset(a) == multiset(b) && a != [] && b != []
    ensures a[0] <= b[0]
  {
    assert b[0] in multiset(b);
    assert b[0] in a;
  }

  lemma TailMultiset(a: seq<real>)
    requires a != []
    ensures multiset(a[1..]) == multiset(a) - multiset{a[0]}
  {
    assert a == [a[0]] + a[1..];
  }

  /** The order in which values arrive is irrelevant. */
  lemma PercentileOfPermutation(a: seq<real>, b: seq<real>, pct: real)
    requires multiset(a) == multiset(b) && 0.0 <= pct <= 1.0
    ensures Percentile(a, pct) == Percentile(b, pct)
  {
    assert |multiset(a)| == |a| && |multiset(b)| == |b|;
    SortedOrder(a);
    SortedOrder(b);
    OrderedPermutationUnique(Sorted(a), Sorted(b));
    if a != [] {
      PercentileInterpolates(a, pct);
      PercentileInterpolates(b, pct);
    }
  }

  /** One column of the reported summary of a sample that has values. */
  function SummaryAt(values: seq<Option<real>>, pct: real): real
    requires Present(values) != [] && 0.0 <= pct <= 1.0
  {
    PercentileOfColumn(values, pct).value
  }

  /** The reported summary p01 <= p05 <= p25 <= p50 <= p75 <= p95 <= p99, so the IQR is never negative. */
  lemma SummaryIsOrdered(values: seq<Option<real>>)
    requires Present(values) != []
    ensures SummaryAt(values, 0.01) <= SummaryAt(values, 0.05) <= SummaryAt(values, 0.25) <= SummaryAt(values, 0.5)
    ensures SummaryAt(values, 0.5) <= SummaryAt(values, 0.75) <= SummaryAt(values, 0.95) <= SummaryAt(values, 0.99)
    ensures SummaryAt(values, 0.75) - SummaryAt(values, 0.25) >= 0.0
  {
    var s := Present(values);
    PercentileMonotone(s, 0.01, 0.05);
    PercentileMonotone(s, 0.05, 0.25);
    PercentileMonotone(s, 0.25, 0.5);
    PercentileMonotone(s, 0.5, 0.75);
    PercentileMonotone(s, 0.75, 0.95);
    PercentileMonotone(s, 0.95, 0.99);
  }
}
