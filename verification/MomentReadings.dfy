/** The z-score and the standardised moments in plain sums, and where the kurtosis bound is attained. */
module MomentReadings {
  import opened Sequences
  import opened Arithmetic
  import opened Percentiles
  import opened Moments

  function Distance(m: real): real -> real { (x: real) => x - m }
  function Distance2(m: real): real -> real { (x: real) => (x - m) * (x - m) }
  function Distance3(m: real): real -> real { (x: real) => (x - m) * (x - m) * (x - m) }
  function Distance4(m: real): real -> real { (x: real) => (x - m) * (x - m) * ((x - m) * (x - m)) }
  function Itself(): real -> real { (x: real) => x }

  /** x is the average of f over the sample. */
  ghost predicate IsAverage(x: real, values: seq<real>, f: real -> real) { x * |values| as real == RealSum(values, f) }

  lemma {:induction false} DeviationsSums(values: seq<real>, m: real)
    ensures RealSum(Deviations(values, m), Square) == RealSum(values, Distance2(m))
    ensures RealSum(Deviations(values, m), Cube) == RealSum(values, Distance3(m))
    ensures RealSum(Deviations(values, m), Fourth) == RealSum(values, Distance4(m))
  {
    if values != [] {
      DeviationsSums(values[1..], m);
      var d := Deviations(values[1..], m);
      assert ([values[0] - m] + d)[1..] == d;
    }
  }

  lemma QuotientIsAverage(total: real, values: seq<real>, f: real -> real)
    requires values != [] && total == RealSum(values, f)
    ensures IsAverage(total / |values| as real, values, f)
  {
    DivideBack(total, |values| as real);
  }

  lemma MeanIsAverage(values: seq<real>)
    requires values != []
    ensures IsAverage(Mean(values), values, Itself())
  {
    RealSumEqual(values, Id, Itself());
    QuotientIsAverage(RealSum(values, Id), values, Itself());
  }

  lemma MomentIsAverage(values: seq<real>, power: real -> real, f: real -> real)
    requires values != [] && RealSum(Deviations(values, Mean(values)), power) == RealSum(values, f)
    ensures IsAverage(CentralMoment(values, power), values, f)
  {
    QuotientIsAverage(RealSum(values, f), values, f);
  }

  // ----- the z-score

  ghost predicate IsSampleVariance(v: real, m: real, values: seq<real>) {
    v * (|values| as real - 1.0) == RealSum(values, Distance2(m))
  }

  lemma VarianceIsSample(values: seq<real>)
    requires |values| >= 2
    ensures IsSampleVariance(Variance(values), Mean(values), values)
  {
    DeviationsSums(values, Mean(values));
    DivideBack(SquaredDeviations(values), |values| as real - 1.0);
  }

  /**
   * The z-score exists exactly when the last value of the window is present, at least two are, and the
   * root of the sample variance is positive; times that root, plus the average, it is the last value.
   */
  lemma ZScoreMeans(window: seq<Option<real>>, root: real -> real) returns (m: real, v: real)
    requires window != [] && |Present(window)| >= 2
    ensures IsAverage(m, Present(window), Itself()) && IsSampleVariance(v, m, Present(window))
    ensures var z, last := ZScore(window, root), window[|window| - 1];
            && (z.Some? <==> last.Some? && root(v) > 0.0)
            && (z.Some? ==> z.value * root(v) + m == last.value)
  {
    var values := Present(window);
    m, v := Mean(values), Variance(values);
    MeanIsAverage(values);
    VarianceIsSample(values);
    if window[|window| - 1].Some? && root(v) > 0.0 { DivideBack(window[|window| - 1].value - m, root(v)); }
  }

  // ----- skewness and kurtosis

  /** The numbers are the average and the central moments, and the two statistics standardise them. */
  lemma MomentsAreStandardised(values: seq<real>, root: real -> real) returns (m: real, m2: real, m3: real, m4: real)
    requires HasSpreadRoot(values, root) && |values| >= 4
    ensures IsAverage(m, values, Itself()) && IsAverage(m2, values, Distance2(m))
    ensures IsAverage(m3, values, Distance3(m)) && IsAverage(m4, values, Distance4(m))
    ensures SkewAndKurt(values, root).Some? <==> m2 > 0.0
    ensures m2 > 0.0 ==> Standardises(SkewAndKurt(values, root).value, m2, m3, m4, root(m2))
  {
    m, m2, m3, m4 := Mean(values), CentralMoment(values, Square), CentralMoment(values, Cube), CentralMoment(values, Fourth);
    MeanIsAverage(values);
    DeviationsSums(values, m);
    MomentIsAverage(values, Square, Distance2(m));
    MomentIsAverage(values, Cube, Distance3(m));
    MomentIsAverage(values, Fourth, Distance4(m));
    StatisticsOf(values, root, m2, m3, m4);
  }

  lemma StatisticsOf(values: seq<real>, root: real -> real, m2: real, m3: real, m4: real)
    requires HasSpreadRoot(values, root) && |values| >= 4
    requires m2 == CentralMoment(values, Square) && m3 == CentralMoment(values, Cube) && m4 == CentralMoment(values, Fourth)
    ensures SkewAndKurt(values, root).Some? <==> m2 > 0.0
    ensures m2 > 0.0 ==> Standardises(SkewAndKurt(values, root).value, m2, m3, m4, root(m2))
  {
    if m2 > 0.0 {
      RootIsPositive(root, m2);
      StandardisedParts(m2, m3, m4, root(m2));
    }
  }

  ghost predicate Standardises(stats: (real, real), m2: real, m3: real, m4: real, r: real) {
    r * r == m2 && stats.0 * (m2 * r) == m3 && (stats.1 + 3.0) * (m2 * m2) == m4
  }

  lemma StandardisedParts(m2: real, m3: real, m4: real, r: real)
    requires m2 > 0.0 && r > 0.0 && r * r == m2 && m2 * r > 0.0 && m2 * m2 > 0.0
    ensures Standardises((SkewOf(m2, m3, r), KurtOf(m2, m4)), m2, m3, m4, r)
  {
    DivideBack(m3, m2 * r);
    DivideBack(m4, m2 * m2);
  }

  /** Too few values have no moments. */
  lemma FewValuesHaveNone(values: seq<real>, root: real -> real)
    requires HasSpreadRoot(values, root) && |values| < 4
    ensures SkewAndKurt(values, root).None?
  {
  }

  // ----- two-valued samples attain the bound

  ghost predicate Combines(x: real, a: real, y: real, b: real, z: real) { x == a * y + b * z }

  lemma CombinationsAdd(a: real, b: real, x: real, y: real, z: real, x': real, y': real, z': real)
    requires Combines(x, a, y, b, z) && Combines(x', a, y', b, z')
    ensures Combines(x + x', a, y + y', b, z + z')
  {
    Distribute(a, y, y');
    Distribute(b, z, z');
  }

  lemma {:induction false} LinearSums(d: seq<real>, f: real -> real, g: real -> real, h: real -> real, a: real, b: real)
    requires forall i :: 0 <= i < |d| ==> Combines(f(d[i]), a, g(d[i]), b, h(d[i]))
    ensures Combines(RealSum(d, f), a, RealSum(d, g), b, RealSum(d, h))
  {
    if d != [] {
      forall i | 0 <= i < |d[1..]| ensures Combines(f(d[1..][i]), a, g(d[1..][i]), b, h(d[1..][i])) {
        assert d[1..][i] == d[i + 1];
      }
      LinearSums(d[1..], f, g, h, a, b);
      CombinationsAdd(a, b, f(d[0]), g(d[0]), h(d[0]), RealSum(d[1..], f), RealSum(d[1..], g), RealSum(d[1..], h));
    }
  }

  lemma TimesCombination(x: real, a: real, y: real, b: real, z: real, w: real)
    requires Combines(x, a, y, b, z)
    ensures Combines(x * w, a, y * w, b, z * w)
  {
    var p, q := a * y, b * z;
    assert x * w == p * w + q * w;
    assert p * w == a * (y * w) && q * w == b * (z * w);
  }

  lemma RootsOfQuadratic(x: real, u: real, v: real, s: real, p: real)
    requires (x == u || x == v) && s == u + v && p == 0.0 - u * v
    ensures Combines(x * x, s, x, p, 1.0)
  {
    assert (x - u) * (x - v) == x * x - (u + v) * x + u * v;
  }

  lemma PowersOfTwoValues(x: real, u: real, v: real, s: real, p: real)
    requires (x == u || x == v) && s == u + v && p == 0.0 - u * v
    ensures Combines(Square(x), s, Id(x), p, One(x))
    ensures Combines(Cube(x), s, Square(x), p, Id(x))
    ensures Combines(Fourth(x), s, Cube(x), p, Square(x))
  {
    RootsOfQuadratic(x, u, v, s, p);
    TimesCombination(x * x, s, x, p, 1.0, x);
    TimesCombination(x * x, s, x, p, 1.0, x * x);
    assert x * (x * x) == x * x * x;
  }

  function One(x: real): real { 1.0 }

  lemma {:induction false} SumOfOne(d: seq<real>)
    ensures RealSum(d, One) == |d| as real
  {
    if d != [] { SumOfOne(d[1..]); }
  }

  /** Sums of powers of deviations that take two values and cancel. */
  lemma TwoValuedSums(d: seq<real>, u: real, v: real, s: real, p: real)
    requires s == u + v && p == 0.0 - u * v
    requires forall x :: x in d ==> x == u || x == v
    ensures Combines(RealSum(d, Square), s, RealSum(d, Id), p, |d| as real)
    ensures Combines(RealSum(d, Cube), s, RealSum(d, Square), p, RealSum(d, Id))
    ensures Combines(RealSum(d, Fourth), s, RealSum(d, Cube), p, RealSum(d, Square))
  {
    forall i | 0 <= i < |d|
      ensures Combines(Square(d[i]), s, Id(d[i]), p, One(d[i]))
      ensures Combines(Cube(d[i]), s, Square(d[i]), p, Id(d[i])) && Combines(Fourth(d[i]), s, Cube(d[i]), p, Square(d[i]))
    {
      assert d[i] in d;
      PowersOfTwoValues(d[i], u, v, s, p);
    }
    LinearSums(d, Square, Id, One, s, p);
    LinearSums(d, Cube, Square, Id, s, p);
    LinearSums(d, Fourth, Cube, Square, s, p);
    SumOfOne(d);
  }

  lemma DividedCombination(x: real, a: real, y: real, b: real, z: real, n: real, x': real, y': real, z': real)
    requires n > 0.0 && Combines(x, a, y, b, z) && x == x' * n && y == y' * n && z == z' * n
    ensures Combines(x', a, y', b, z')
  {
    TimesCombination(a * y' + b * z', a, y', b, z', n);
    CancelFactor(x', a * y' + b * z', n);
  }

  ghost predicate TwoValued(values: seq<real>, a: real, b: real) { forall x :: x in values ==> x == a || x == b }

  lemma TwoValuedMoments(values: seq<real>, a: real, b: real) returns (s: real, p: real)
    requires values != [] && TwoValued(values, a, b)
    ensures s == (a - Mean(values)) + (b - Mean(values))
    ensures var m2, m3, m4 := CentralMoment(values, Square), CentralMoment(values, Cube), CentralMoment(values, Fourth);
            Combines(m2, s, 0.0, p, 1.0) && Combines(m3, s, m2, p, 0.0) && Combines(m4, s, m3, p, m2)
  {
    var d, m, n := Deviations(values, Mean(values)), Mean(values), |values| as real;
    s := (a - m) + (b - m);
    p := 0.0 - (a - m) * (b - m);
    DeviationsIndex(values, m);
    MeanDeviationsCancel(values);
    forall x | x in d ensures x == a - m || x == b - m {
      var i :| 0 <= i < |d| && d[i] == x;
      assert values[i] in values;
    }
    TwoValuedSums(d, a - m, b - m, s, p);
    DividedSums(RealSum(d, Square), RealSum(d, Cube), RealSum(d, Fourth), s, p, n);
  }

  lemma DividedSums(s2: real, s3: real, s4: real, s: real, p: real, n: real)
    requires n > 0.0 && Combines(s2, s, 0.0, p, n) && Combines(s3, s, s2, p, 0.0) && Combines(s4, s, s3, p, s2)
    ensures Combines(s2 / n, s, 0.0, p, 1.0) && Combines(s3 / n, s, s2 / n, p, 0.0) && Combines(s4 / n, s, s3 / n, p, s2 / n)
  {
    DivideBack(s2, n);
    DivideBack(s3, n);
    DivideBack(s4, n);
    DividedCombination(s2, s, 0.0, p, n, n, s2 / n, 0.0, 1.0);
    DividedCombination(s3, s, s2, p, 0.0, n, s3 / n, s2 / n, 0.0);
    DividedCombination(s4, s, s3, p, s2, n, s4 / n, s3 / n, s2 / n);
  }

  /**
   * Every sample of two values attains the bound: its excess kurtosis is its squared skewness minus two,
   * and its skewness times the root of its second moment is the sum of the two distances from the mean.
   */
  lemma KurtosisBoundAttained(values: seq<real>, a: real, b: real, root: real -> real)
    requires HasSpreadRoot(values, root) && SkewAndKurt(values, root).Some? && TwoValued(values, a, b)
    ensures var (skewness, kurtosis) := SkewAndKurt(values, root).value;
            && kurtosis == skewness * skewness - 2.0
            && skewness * root(CentralMoment(values, Square)) == (a - Mean(values)) + (b - Mean(values))
  {
    var s, p := TwoValuedMoments(values, a, b);
    var m2, m3, m4 := CentralMoment(values, Square), CentralMoment(values, Cube), CentralMoment(values, Fourth);
    StatisticsOf(values, root, m2, m3, m4);
    RootIsPositive(root, m2);
    var stats := SkewAndKurt(values, root).value;
    TwoValuedShape(stats.0, stats.1, m2, m3, m4, root(m2), s, p);
  }

  lemma TwoValuedShape(skew: real, kurt: real, m2: real, m3: real, m4: real, r: real, s: real, p: real)
    requires m2 > 0.0 && r > 0.0 && Standardises((skew, kurt), m2, m3, m4, r)
    requires Combines(m2, s, 0.0, p, 1.0) && Combines(m3, s, m2, p, 0.0) && Combines(m4, s, m3, p, m2)
    ensures skew * r == s && kurt == skew * skew - 2.0
  {
    assert p == m2;
    assert m3 == s * m2;
    var t, q, w := skew * r, skew * skew, m2 * m2;
    Regroup(skew, m2, r);
    CancelFactor(t, s, m2);
    SquareOfProduct(t, skew, m2, r);
    Regroup(s, s, m2);
    assert s * m3 == q * m2 * m2;
    Regroup(q, m2, m2);
    ProductPositive(m2, m2);
    assert s * m3 == q * w;
    assert m4 == s * m3 + p * m2 && p * m2 == w;
    assert (kurt + 3.0) * w == m4;
    assert (q + 1.0) * w == q * w + w;
    CancelFactor(kurt + 3.0, q + 1.0, w);
  }

  lemma Regroup(x: real, y: real, z: real)
    ensures x * (y * z) == x * z * y && x * (y * z) == x * y * z
  {
  }

  lemma CancelFactor(x: real, y: real, w: real)
    requires w > 0.0 && x * w == y * w
    ensures x == y
  {
    CancelPositive(x, y, w);
    CancelPositive(y, x, w);
  }
}
