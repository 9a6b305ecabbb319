/**
 * Trailing z-scores and standardised moments. Square roots enter as a parameter: the bounds hold
 * for whatever function returns a root of the variance it is given.
 */
module Moments {
  import opened Sequences
  import opened Arithmetic
  import opened Percentiles

  const ZSCORE_WINDOW: nat := 20

  function Id(x: real): real { x }
  function Square(x: real): real { x * x }
  function Cube(x: real): real { x * x * x }
  function Fourth(x: real): real { x * x * (x * x) }

  function Mean(s: seq<real>): real
    requires s != []
  {
    RealSum(s, Id) / |s| as real
  }

  function Deviations(s: seq<real>, c: real): seq<real> {
    if s == [] then [] else [s[0] - c] + Deviations(s[1..], c)
  }

  /** Sample variance: the divisor is n - 1. */
  function Variance(s: seq<real>): real
    requires |s| >= 2
  {
    SquaredDeviations(s) / (|s| as real - 1.0)
  }

  ghost predicate IsRoot(root: real -> real, v: real) {
    root(v) >= 0.0 && root(v) * root(v) == v
  }

  /** The z-score of the last row of a trailing window in which some values are missing. */
  function ZScore(window: seq<Option<real>>, root: real -> real): Option<real>
    requires window != []
  {
    var values := Present(window);
    if window[|window| - 1].None? || |values| < 2 then None
    else
      var std := root(Variance(values));
      if std > 0.0 then Some((window[|window| - 1].value - Mean(values)) / std) else None
  }

  // ----- deviations

  lemma {:induction false} DeviationsIndex(s: seq<real>, c: real)
    ensures |Deviations(s, c)| == |s|
    ensures forall i :: 0 <= i < |s| ==> Deviations(s, c)[i] == s[i] - c
  {
    if s != [] { DeviationsIndex(s[1..], c); }
  }

  lemma {:induction false} DeviationsSum(s: seq<real>, c: real)
    ensures RealSum(Deviations(s, c), Id) == RealSum(s, Id) - |s| as real * c
  {
    if s != [] {
      DeviationsSum(s[1..], c);
      var d := Deviations(s[1..], c);
      assert ([s[0] - c] + d)[1..] == d;
      assert (|s| - 1) as real * c == |s| as real * c - c;
    }
  }

  lemma MeanDeviationsCancel(s: seq<real>)
    requires s != []
    ensures RealSum(Deviations(s, Mean(s)), Id) == 0.0
  {
    DeviationsSum(s, Mean(s));
  }

  // ----- the z-score bound

  lemma {:induction false} ShiftedSquares(s: seq<real>, t: real)
    ensures RealSum(s, Square) - 2.0 * t * RealSum(s, Id) + |s| as real * (t * t) >= 0.0
  {
    if s != [] {
      ShiftedSquares(s[1..], t);
      var x, n := s[0], (|s| - 1) as real;
      assert |s| as real * (t * t) == n * (t * t) + t * t;
      assert 2.0 * t * RealSum(s, Id) == 2.0 * t * x + 2.0 * t * RealSum(s[1..], Id);
      assert (x - t) * (x - t) == x * x - 2.0 * t * x + t * t;
      SquareNonNegative(x - t);
    }
  }

  lemma SumSquaredBound(s: seq<real>)
    ensures RealSum(s, Id) * RealSum(s, Id) <= |s| as real * RealSum(s, Square)
  {
    if s != [] {
      var n, a, b := |s| as real, RealSum(s, Id), RealSum(s, Square);
      var t := a / n;
      ShiftedSquares(s, t);
      assert n * t == a;
      assert n * (t * t) == a * t;
      assert b - a * t >= 0.0;
      ProductNonNegative(n, b - a * t);
      assert n * (b - a * t) == n * b - a * (n * t);
    }
  }

  lemma {:induction false} SumWithout(d: seq<real>, i: nat, f: real -> real)
    requires i < |d|
    ensures RealSum(d, f) == f(d[i]) + RealSum(d[..i] + d[i + 1..], f)
  {
    if i == 0 {
      assert d[..0] + d[1..] == d[1..];
    } else {
      var rest := d[1..];
      SumWithout(rest, i - 1, f);
      assert d[..i] + d[i + 1..] == [d[0]] + (rest[..i - 1] + rest[i..]);
      SumCons(d[0], rest[..i - 1] + rest[i..], f);
    }
  }

  lemma SumCons(x: real, s: seq<real>, f: real -> real)
    ensures RealSum([x] + s, f) == f(x) + RealSum(s, f)
  {
    assert ([x] + s)[1..] == s;
  }

  lemma OneAgainstRest(x: real, r: real, squares: real, total: real, m: real, n: real)
    requires x + r == 0.0 && r * r <= m * squares
    requires total == x * x + squares && n == m + 1.0
    ensures n * (x * x) <= (n - 1.0) * total
  {
    assert r * r == x * x;
    Distribute(m, x * x, squares);
  }

  /** The sum and the squares of the other deviations. */
  lemma OtherDeviations(d: seq<real>, i: nat) returns (sum: real, squares: real, m: real)
    requires i < |d|
    ensures m == |d| as real - 1.0 && sum * sum <= m * squares
    ensures RealSum(d, Id) == d[i] + sum && RealSum(d, Square) == Square(d[i]) + squares
  {
    var rest := d[..i] + d[i + 1..];
    SumWithout(d, i, Id);
    SumWithout(d, i, Square);
    SumSquaredBound(rest);
    sum, squares, m := RealSum(rest, Id), RealSum(rest, Square), |rest| as real;
  }

  /** Removing one deviation leaves n - 1 of them that sum to its negation. */
  lemma OneDeviationBound(d: seq<real>, i: nat)
    requires i < |d| && RealSum(d, Id) == 0.0
    ensures |d| as real * (d[i] * d[i]) <= (|d| as real - 1.0) * RealSum(d, Square)
  {
    var sum, squares, m := OtherDeviations(d, i);
    OneAgainstRest(d[i], sum, squares, RealSum(d, Square), m, |d| as real);
  }

  lemma {:induction false} PresentIncludes(window: seq<Option<real>>, i: nat)
    requires i < |window| && window[i].Some?
    ensures window[i].value in Present(window)
    ensures |Present(window)| <= |window|
  {
    PresentLength(window);
    if i > 0 { PresentIncludes(window[1..], i - 1); }
  }

  lemma {:induction false} PresentLength(window: seq<Option<real>>)
    ensures |Present(window)| <= |window|
  {
    if window != [] { PresentLength(window[1..]); }
  }

  lemma StandardisedSquare(z: real, v: real, x2: real, total: real, n: real, m: real)
    requires v > 0.0 && x2 == z * z * v && total == v * m
    requires n * x2 <= m * total
    ensures z * z * n <= m * m
  {
    assert n * x2 == z * z * n * v;
    assert m * total == m * m * v;
    CancelPositive(z * z * n, m * m, v);
  }

  /** The square of a z-score over n values, scaled by n, against its largest possible value. */
  ghost predicate Samuelson(z: real, n: real) { z * z * n <= (n - 1.0) * (n - 1.0) }

  /** A z-score that exists is the last value, standardised over the present values of the window. */
  lemma ZScoreStandardises(window: seq<Option<real>>, root: real -> real) returns (i: nat, std: real)
    requires window != [] && ZScore(window, root).Some?
    ensures |Present(window)| >= 2 && i < |Present(window)|
    ensures std == root(Variance(Present(window))) && std > 0.0
    ensures ZScore(window, root).value == (Present(window)[i] - Mean(Present(window))) / std
  {
    var values, last := Present(window), |window| - 1;
    PresentIncludes(window, last);
    i :| 0 <= i < |values| && values[i] == window[last].value;
    std := root(Variance(values));
  }

  /** Samuelson's inequality for the trailing z-score: z * z * n <= (n - 1)^2 over n present values. */
  lemma ZScoreBounded(window: seq<Option<real>>, root: real -> real)
    requires window != []
    requires |Present(window)| >= 2 ==> IsRoot(root, Variance(Present(window)))
    requires ZScore(window, root).Some?
    ensures Samuelson(ZScore(window, root).value, |Present(window)| as real)
  {
    var i, std := ZScoreStandardises(window, root);
    assert IsRoot(root, Variance(Present(window)));
    StandardisedBound(Present(window), i, std, ZScore(window, root).value);
  }

  lemma StandardisedBound(values: seq<real>, i: nat, std: real, z: real)
    requires i < |values| && |values| >= 2 && std > 0.0 && std * std == Variance(values)
    requires z == (values[i] - Mean(values)) / std
    ensures Samuelson(z, |values| as real)
  {
    var n, x, total := |values| as real, values[i] - Mean(values), SquaredDeviations(values);
    DeviationBound(values, i);
    DivideBack(x, std);
    DivideBack(total, n - 1.0);
    SquarePositive(std, Variance(values));
    SquareOfProduct(x, z, Variance(values), std);
    StandardisedSquare(z, Variance(values), x * x, total, n, n - 1.0);
  }

  function SquaredDeviations(s: seq<real>): real
    requires s != []
  {
    RealSum(Deviations(s, Mean(s)), Square)
  }

  lemma DeviationBound(s: seq<real>, i: nat)
    requires i < |s|
    ensures var x := s[i] - Mean(s);
            |s| as real * (x * x) <= (|s| as real - 1.0) * SquaredDeviations(s)
  {
    DeviationsIndex(s, Mean(s));
    MeanDeviationsCancel(s);
    OneDeviationBound(Deviations(s, Mean(s)), i);
  }

  lemma BoundGrows(n: real, z: real)
    requires 2.0 <= n <= 20.0 && Samuelson(z, n)
    ensures z * z <= 18.05
  {
    var z2 := z * z;
    ProductNonNegative(20.0 - n, n - 0.05);
    assert (20.0 - n) * (n - 0.05) == 18.05 * n - (n - 1.0) * (n - 1.0);
    CancelPositive(z2, 18.05, n);
  }

  /** With the 20-row window no z-score feature can exceed sqrt(18.05) in magnitude. */
  lemma WindowZScoreBounded(window: seq<Option<real>>, root: real -> real)
    requires 0 < |window| <= ZSCORE_WINDOW
    requires |Present(window)| >= 2 ==> IsRoot(root, Variance(Present(window)))
    requires ZScore(window, root).Some?
    ensures ZScore(window, root).value * ZScore(window, root).value <= 18.05
  {
    ZScoreBounded(window, root);
    PresentLength(window);
    BoundGrows(|Present(window)| as real, ZScore(window, root).value);
  }

  /** A window of zeros that ends in a single one. */
  function Spike(m: nat): (r: seq<real>)
    ensures |r| == m + 1
  {
    if m == 0 then [1.0] else [0.0] + Spike(m - 1)
  }

  lemma {:induction false} SpikeSum(m: nat)
    ensures Spike(m)[m] == 1.0
    ensures RealSum(Spike(m), Id) == 1.0
  {
    if m > 0 {
      SpikeSum(m - 1);
      assert Spike(m)[1..] == Spike(m - 1);
    }
  }

  lemma SpikeDeviations(m: nat, c: real)
    requires m > 0
    ensures RealSum(Deviations(Spike(m), c), Square) == Square(0.0 - c) + RealSum(Deviations(Spike(m - 1), c), Square)
  {
    var d := Deviations(Spike(m - 1), c);
    assert Spike(m)[1..] == Spike(m - 1);
    assert ([0.0 - c] + d)[1..] == d;
  }

  lemma NextMultiple(m: real, s: real)
    ensures (m - 1.0) * s + s == m * s
  {
  }

  lemma {:induction false} SpikeSquares(m: nat, c: real)
    ensures RealSum(Deviations(Spike(m), c), Square) == m as real * Square(0.0 - c) + Square(1.0 - c)
  {
    if m == 0 {
      assert Deviations(Spike(0), c) == [1.0 - c];
    } else {
      SpikeSquares(m - 1, c);
      SpikeDeviations(m, c);
      NextMultiple(m as real, Square(0.0 - c));
    }
  }

  lemma SpikeMoments(m: nat, c: real)
    requires m >= 1 && c == 1.0 / (m + 1) as real
    ensures Mean(Spike(m)) == c && Variance(Spike(m)) == c
  {
    SpikeSum(m);
    SpikeSquares(m, c);
    SpikeVariance(m as real, (m + 1) as real, c);
  }

  /** Samuelson's bound is attained at every window size, so 18.05 cannot be improved. */
  lemma ZScoreBoundAttained(m: nat, std: real, z: real)
    requires m >= 1 && std > 0.0 && std * std == Variance(Spike(m))
    requires z == (1.0 - Mean(Spike(m))) / std
    ensures z * z * (m + 1) as real == m as real * m as real
  {
    var c := 1.0 / (m + 1) as real;
    SpikeMoments(m, c);
    DivideBack(1.0 - c, std);
    SquareOfProduct(1.0 - c, z, c, std);
    SpikeRatio(z, m as real, (m + 1) as real, c);
  }

  lemma SpikeVariance(k: real, n: real, c: real)
    requires n == k + 1.0 && k >= 1.0 && c == 1.0 / n
    ensures (k * (c * c) + (1.0 - c) * (1.0 - c)) / (n - 1.0) == c
  {
    assert c * n == 1.0;
    assert 1.0 - c == k * c;
    assert (1.0 - c) * (1.0 - c) == k * c * (1.0 - c);
    assert k * (c * c) + k * c * (1.0 - c) == k * c;
    assert k * c / k == c;
  }

  lemma SpikeRatio(z: real, k: real, n: real, c: real)
    requires n == k + 1.0 && k >= 1.0 && c == 1.0 / n
    requires (1.0 - c) * (1.0 - c) == z * z * c
    ensures z * z * n == k * k
  {
    assert c * n == 1.0;
    assert 1.0 - c == k * c;
    var w := z * z;
    assert w * c == k * c * (k * c);
    assert w * (c * n) == k * k * (c * n) * c by { assert w * c * n == k * c * (k * c) * n; }
    assert w == k * k * c;
    assert w * n == k * k * (c * n);
  }

  // ----- skewness and kurtosis

  ghost predicate HasSpreadRoot(values: seq<real>, root: real -> real) {
    |values| >= 4 && CentralMoment(values, Square) > 0.0 ==> IsRoot(root, CentralMoment(values, Square))
  }

  function SkewOf(m2: real, m3: real, r: real): real
    requires m2 * r > 0.0
  {
    m3 / (m2 * r)
  }

  function KurtOf(m2: real, m4: real): real
    requires m2 * m2 > 0.0
  {
    m4 / (m2 * m2) - 3.0
  }

  /** Population skewness and excess kurtosis, undefined below four values or without spread. */
  function SkewAndKurt(values: seq<real>, root: real -> real): Option<(real, real)>
    requires HasSpreadRoot(values, root)
  {
    if |values| < 4 then None
    else
      var m2 := CentralMoment(values, Square);
      if m2 <= 0.0 then None
      else
        var m3, m4 := CentralMoment(values, Cube), CentralMoment(values, Fourth);
        RootIsPositive(root, m2);
        Some((SkewOf(m2, m3, root(m2)), KurtOf(m2, m4)))
  }

  lemma RootIsPositive(root: real -> real, v: real)
    requires v > 0.0 && IsRoot(root, v)
    ensures root(v) > 0.0 && v * root(v) > 0.0 && v * v > 0.0
  {
  }

  function CentralMoment(values: seq<real>, power: real -> real): real
    requires values != []
  {
    RealSum(Deviations(values, Mean(values)), power) / |values| as real
  }

  lemma ResidualTerm(x: real, a: real, b: real)
    ensures Fourth(x) - 2.0 * b * Cube(x) + (b * b - 2.0 * a) * Square(x) + 2.0 * (a * b) * Id(x) + a * a >= 0.0
  {
    var r := x * x - a - b * x;
    SquareNonNegative(r);
    assert r * r == Fourth(x) - 2.0 * b * Cube(x) + (b * b - 2.0 * a) * Square(x) + 2.0 * (a * b) * x + a * a;
  }

  /** A combination of four sums is non-negative when it is so term by term. */
  lemma {:induction false} CombinationNonNegative(d: seq<real>, f: real -> real, g: real -> real, h: real -> real, i: real -> real,
                                                  kg: real, kh: real, ki: real, k: real)
    requires forall x :: f(x) - kg * g(x) + kh * h(x) + ki * i(x) + k >= 0.0
    ensures RealSum(d, f) - kg * RealSum(d, g) + kh * RealSum(d, h) + ki * RealSum(d, i) + k * |d| as real >= 0.0
  {
    if d != [] {
      CombinationNonNegative(d[1..], f, g, h, i, kg, kh, ki, k);
      ScaledSum(d, g, kg);
      ScaledSum(d, h, kh);
      ScaledSum(d, i, ki);
      Distribute(k, 1.0, |d[1..]| as real);
      assert f(d[0]) - kg * g(d[0]) + kh * h(d[0]) + ki * i(d[0]) + k >= 0.0;
    }
  }

  lemma ScaledSum(d: seq<real>, f: real -> real, k: real)
    requires d != []
    ensures k * RealSum(d, f) == k * f(d[0]) + k * RealSum(d[1..], f)
  {
    Distribute(k, f(d[0]), RealSum(d[1..], f));
  }

  lemma MomentInequality(s2: real, s3: real, s4: real, n: real)
    requires n > 0.0 && s2 > 0.0
    requires s4 - 2.0 * (s3 / s2) * s3 + (s3 / s2 * (s3 / s2) - 2.0 * (s2 / n)) * s2 + s2 / n * (s2 / n) * n >= 0.0
    ensures var m2, m3, m4 := s2 / n, s3 / n, s4 / n;
            m4 * m2 >= m3 * m3 + m2 * m2 * m2
  {
    var m2, m3, m4, b := s2 / n, s3 / n, s4 / n, s3 / s2;
    assert s2 == n * m2 && s3 == n * m3 && s4 == n * m4;
    assert b * s2 == s3;
    assert b * m2 == m3;
    assert 2.0 * b * s3 == n * (2.0 * b * m3);
    assert (b * b - 2.0 * m2) * s2 == n * ((b * b - 2.0 * m2) * m2);
    var q := m4 - 2.0 * b * m3 + (b * b - 2.0 * m2) * m2 + m2 * m2;
    assert n * q >= 0.0;
    CancelPositive(0.0, q, n);
    assert b * b * m2 == b * m3;
    assert q == m4 - b * m3 - m2 * m2;
    ProductNonNegative(q, m2);
    assert q * m2 == m4 * m2 - b * m2 * m3 - m2 * m2 * m2;
  }

  /** Pearson's inequality: excess kurtosis is never below squared skewness minus two. */
  lemma KurtosisDominatesSkewness(values: seq<real>, root: real -> real)
    requires HasSpreadRoot(values, root) && SkewAndKurt(values, root).Some?
    ensures var (skewness, kurtosis) := SkewAndKurt(values, root).value;
            kurtosis >= skewness * skewness - 2.0
  {
    var n := |values| as real;
    var m2, m3, m4 := CentralMoment(values, Square), CentralMoment(values, Cube), CentralMoment(values, Fourth);
    MomentsSatisfy(values);
    RootIsPositive(root, m2);
    var r := root(m2);
    Standardise(m2, m3, m4, r);
  }

  lemma MomentsSatisfy(values: seq<real>)
    requires values != [] && CentralMoment(values, Square) > 0.0
    ensures var m2, m3, m4 := CentralMoment(values, Square), CentralMoment(values, Cube), CentralMoment(values, Fourth);
            m4 * m2 >= m3 * m3 + m2 * m2 * m2
  {
    var d, n := Deviations(values, Mean(values)), |values| as real;
    DeviationsIndex(values, Mean(values));
    MeanDeviationsCancel(values);
    var s2, s3, s4 := RealSum(d, Square), RealSum(d, Cube), RealSum(d, Fourth);
    var m2 := s2 / n;
    assert s2 == m2 * n;
    var b := s3 / s2;
    forall x ensures Fourth(x) - 2.0 * b * Cube(x) + (b * b - 2.0 * m2) * Square(x) + 2.0 * (m2 * b) * Id(x) + m2 * m2 >= 0.0 {
      ResidualTerm(x, m2, b);
    }
    CombinationNonNegative(d, Fourth, Cube, Square, Id, 2.0 * b, b * b - 2.0 * m2, 2.0 * (m2 * b), m2 * m2);
    MomentInequality(s2, s3, s4, n);
  }

  lemma Standardise(m2: real, m3: real, m4: real, r: real)
    requires m2 > 0.0 && r > 0.0 && r * r == m2
    requires m4 * m2 >= m3 * m3 + m2 * m2 * m2
    ensures m2 * r > 0.0 && m2 * m2 > 0.0
    ensures KurtOf(m2, m4) >= SkewOf(m2, m3, r) * SkewOf(m2, m3, r) - 2.0
  {
    ProductPositive(m2, r);
    ProductPositive(m2, m2);
    var s, k := m3 / (m2 * r), m4 / (m2 * m2);
    var cube := m2 * m2 * m2;
    assert s * (m2 * r) == m3;
    assert m3 * m3 == s * s * cube by {
      assert (s * (m2 * r)) * (s * (m2 * r)) == s * s * (m2 * m2 * (r * r));
    }
    assert m4 * m2 == k * cube by { assert k * (m2 * m2) == m4; }
    assert cube > 0.0;
    var gap := k - s * s - 1.0;
    assert gap * cube >= 0.0;
    CancelPositive(0.0, gap, cube);
  }
}
