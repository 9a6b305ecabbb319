/** The bars read from the raw events of their bucket: what each column says about them. */
module BarReadings {
  import opened Sequences
  import opened Arithmetic
  import opened Moments
  import MomentReadings
  import opened BarAggregation

  // ----- trade bars

  /** The valid trades of the half-open bucket. */
  function Within(w: int, b: int): Trade -> bool { (t: Trade) => t.valid && b <= t.timeNs < b + w }

  function OfSide(w: int, b: int, side: Side): Trade -> bool { (t: Trade) => t.valid && b <= t.timeNs < b + w && t.side == side }

  function TradeSize(): Trade -> int { (t: Trade) => t.size }

  function TradeValue(): Trade -> real { (t: Trade) => t.price * t.size as real }

  lemma TimeOrder()
    ensures TotalPreorder(TradeLeq) && TotalPreorder(TickLeq)
  {
  }

  /** The time-ordered group of a bucket is a sorted arrangement of the valid trades in its range. */
  lemma GroupIsBucket(trades: seq<Trade>, w: int, b: int)
    requires w > 0 && b % w == 0
    ensures TradeGroup(trades, w, b) == SortBy(Filter(trades, Within(w, b)), TradeLeq)
  {
    TimeOrder();
    FilterSort(Filter(trades, IsValid), TradeLeq, TradeIn(w, b));
    forall t: Trade ensures t.valid && TradeIn(w, b)(t) <==> Within(w, b)(t) { BucketIsRange(t.timeNs, w, b); }
    FilterOfFilter(trades, IsValid, TradeIn(w, b), Within(w, b));
  }

  lemma {:induction false} FilterOfFilter<T>(s: seq<T>, p: T -> bool, q: T -> bool, both: T -> bool)
    requires forall x :: x in s ==> (both(x) <==> p(x) && q(x))
    ensures Filter(Filter(s, p), q) == Filter(s, both)
  {
    if s != [] {
      FilterOfFilter(s[1..], p, q, both);
      var f := Filter(s[1..], p);
      assert ([s[0]] + f)[1..] == f;
    }
  }

  lemma SideVolume(trades: seq<Trade>, w: int, b: int, side: Side)
    requires w > 0 && b % w == 0
    ensures Sum(TradeGroup(trades, w, b), SizeIf(side)) == Sum(Filter(trades, OfSide(w, b, side)), TradeSize())
    ensures Nat(Sum(TradeGroup(trades, w, b), OneIf(side))) == |Filter(trades, OfSide(w, b, side))|
  {
    var all, some := Filter(trades, Within(w, b)), Filter(trades, OfSide(w, b, side));
    var isSide := (t: Trade) => t.side == side;
    var one := (t: Trade) => 1;
    GroupIsBucket(trades, w, b);
    SortSum(all, TradeLeq, SizeIf(side), TradeValue());
    SortSum(all, TradeLeq, OneIf(side), TradeValue());
    SumOfSelected(all, isSide, SizeIf(side), TradeSize());
    SumOfSelected(all, isSide, OneIf(side), one);
    FilterOfFilter(trades, Within(w, b), isSide, OfSide(w, b, side));
    SumOfOnes(some, one);
  }

  lemma Totals(trades: seq<Trade>, w: int, b: int)
    requires w > 0 && b % w == 0
    ensures var g, all := TradeGroup(trades, w, b), Filter(trades, Within(w, b));
            |g| == |all| && Sum(g, SizeOf) == Sum(all, TradeSize()) && RealSum(g, Notional) == RealSum(all, TradeValue())
  {
    var all := Filter(trades, Within(w, b));
    GroupIsBucket(trades, w, b);
    SortPermutes(all, TradeLeq);
    SortSum(all, TradeLeq, SizeOf, Notional);
    SumEqual(all, SizeOf, TradeSize());
    RealSumEqual(all, Notional, TradeValue());
  }

  /** Counts and volumes of a bar, in total and by aggressor, in any order of arrival. */
  lemma TradeBarMeans(trades: seq<Trade>, w: int, b: int)
    requires w > 0 && b % w == 0 && CmeBarAt(trades, w, b).Some?
    ensures var bar := CmeBarAt(trades, w, b).value;
            var all, buys, sells := Filter(trades, Within(w, b)), Filter(trades, OfSide(w, b, Buy)), Filter(trades, OfSide(w, b, Sell));
            var others := Filter(trades, OfSide(w, b, UnknownSide));
            && bar.start == b && bar.count == |all| && bar.totalVolume == Sum(all, TradeSize())
            && bar.buyCount == |buys| && bar.sellCount == |sells| && bar.unknownCount == |others|
            && bar.buyVolume == Sum(buys, TradeSize()) && bar.sellVolume == Sum(sells, TradeSize())
            && bar.unknownVolume == Sum(others, TradeSize())
            && bar.netSignedVolume == Sum(buys, TradeSize()) - Sum(sells, TradeSize())
  {
    Totals(trades, w, b);
    SideVolume(trades, w, b, Buy);
    SideVolume(trades, w, b, Sell);
    SideVolume(trades, w, b, UnknownSide);
  }

  /** A quotient that exists for a positive whole, and then gives the part back. */
  ghost predicate PartOf(quotient: Option<real>, part: real, whole: int) {
    if whole <= 0 then quotient.None? else quotient.Some? && quotient.value * whole as real == part
  }

  lemma QuotientsArePartsOf(value: real, net: int, total: int)
    ensures PartOf(VwapOf(value, total), value, total) && PartOf(SignedRatio(net, total), net as real, total)
  {
    if total > 0 {
      DivideBack(value, total as real);
      DivideBack(net as real, total as real);
    }
  }

  lemma RatiosOfGroup(g: seq<Trade>, start: int, value: real, net: int, total: int)
    requires g != [] && value == RealSum(g, Notional) && total == Sum(g, SizeOf)
    requires net == Sum(g, SizeIf(Buy)) - Sum(g, SizeIf(Sell))
    ensures PartOf(CmeBarOf(g, start).vwap, value, total) && PartOf(CmeBarOf(g, start).signedVolumeRatio, net as real, total)
  {
    QuotientsArePartsOf(value, net, total);
  }

  /** VWAP times volume is the traded value, and the signed ratio times volume is buys minus sells; without volume both are absent. */
  lemma TradeRatiosMean(trades: seq<Trade>, w: int, b: int) returns (value: real, net: int, total: int)
    requires w > 0 && b % w == 0 && CmeBarAt(trades, w, b).Some?
    ensures value == RealSum(Filter(trades, Within(w, b)), TradeValue()) && total == Sum(Filter(trades, Within(w, b)), TradeSize())
    ensures net == Sum(Filter(trades, OfSide(w, b, Buy)), TradeSize()) - Sum(Filter(trades, OfSide(w, b, Sell)), TradeSize())
    ensures PartOf(CmeBarAt(trades, w, b).value.vwap, value, total)
    ensures PartOf(CmeBarAt(trades, w, b).value.signedVolumeRatio, net as real, total)
  {
    Totals(trades, w, b);
    SideVolume(trades, w, b, Buy);
    SideVolume(trades, w, b, Sell);
    var g := TradeGroup(trades, w, b);
    value, net, total := RealSum(g, Notional), Sum(g, SizeIf(Buy)) - Sum(g, SizeIf(Sell)), Sum(g, SizeOf);
    RatiosOfGroup(g, b, value, net, total);
  }

  // ----- TWAP as an average over time

  /** Quote i of a time-ordered group is the one in force at this nanosecond. */
  ghost predicate InForce(g: seq<Tick>, i: nat, t: int) {
    i < |g| && g[i].timeMs * 1_000_000 <= t && (i + 1 < |g| ==> t < g[i + 1].timeMs * 1_000_000)
  }

  /** The mid in force at time t. */
  function MidAt(g: seq<Tick>, t: int): real
    requires g != []
  {
    if |g| > 1 && g[1].timeMs * 1_000_000 <= t then MidAt(g[1..], t) else g[0].mid
  }

  lemma {:induction false} MidAtIsInForce(g: seq<Tick>, t: int) returns (i: nat)
    requires g != [] && g[0].timeMs * 1_000_000 <= t
    ensures InForce(g, i, t) && MidAt(g, t) == g[i].mid
  {
    i := 0;
    if |g| > 1 && g[1].timeMs * 1_000_000 <= t {
      var j := MidAtIsInForce(g[1..], t);
      i := j + 1;
    }
  }

  /** The mids in force from lo up to hi, added up nanosecond by nanosecond. */
  function TimeSum(g: seq<Tick>, lo: int, hi: int): real
    requires g != []
    decreases hi - lo
  {
    if hi <= lo then 0.0 else TimeSum(g, lo, hi - 1) + MidAt(g, hi - 1)
  }

  lemma {:induction false} TimeSumSplits(g: seq<Tick>, lo: int, middle: int, hi: int)
    requires g != [] && lo <= middle <= hi
    ensures TimeSum(g, lo, hi) == TimeSum(g, lo, middle) + TimeSum(g, middle, hi)
    decreases hi - middle
  {
    if middle < hi { TimeSumSplits(g, lo, middle, hi - 1); }
  }

  lemma {:induction false} TimeSumOfFirst(g: seq<Tick>, lo: int, hi: int)
    requires g != [] && lo <= hi && (|g| > 1 ==> hi <= g[1].timeMs * 1_000_000)
    ensures TimeSum(g, lo, hi) == g[0].mid * (hi - lo) as real
    decreases hi - lo
  {
    if lo < hi {
      TimeSumOfFirst(g, lo, hi - 1);
      Distribute(g[0].mid, (hi - 1 - lo) as real, 1.0);
    }
  }

  lemma {:induction false} TimeSumOfRest(g: seq<Tick>, lo: int, hi: int)
    requires |g| > 1 && g[1].timeMs * 1_000_000 <= lo <= hi
    ensures TimeSum(g, lo, hi) == TimeSum(g[1..], lo, hi)
    decreases hi - lo
  {
    if lo < hi { TimeSumOfRest(g, lo, hi - 1); }
  }

  lemma TimeSumStep(g: seq<Tick>, end: int) returns (part: real)
    requires |g| > 1 && g[0].timeMs <= g[1].timeMs && g[1].timeMs * 1_000_000 <= end
    ensures part == g[0].mid * (g[1].timeMs * 1_000_000 - g[0].timeMs * 1_000_000) as real
    ensures TimeSum(g, g[0].timeMs * 1_000_000, end) == part + TimeSum(g[1..], g[1].timeMs * 1_000_000, end)
  {
    var first, next := g[0].timeMs * 1_000_000, g[1].timeMs * 1_000_000;
    TimeSumSplits(g, first, next, end);
    TimeSumOfFirst(g, first, next);
    TimeSumOfRest(g, next, end);
    part := TimeSum(g, first, next);
  }

  lemma WeightedStep(g: seq<Tick>, end: int) returns (part: real)
    requires |g| > 1 && g[0].timeMs <= g[1].timeMs
    ensures part == g[0].mid * (g[1].timeMs * 1_000_000 - g[0].timeMs * 1_000_000) as real
    ensures Weighted(Mids(g), Weights(g, end)) == part + Weighted(Mids(g[1..]), Weights(g[1..], end))
  {
    var first, next := g[0].timeMs * 1_000_000, g[1].timeMs * 1_000_000;
    assert Weights(g, end) == [next - first] + Weights(g[1..], end);
    assert Mids(g)[1..] == Mids(g[1..]) && Weights(g, end)[1..] == Weights(g[1..], end);
    part := g[0].mid * (next - first) as real;
  }

  lemma LastWeight(g: seq<Tick>, end: int)
    requires |g| == 1 && g[0].timeMs * 1_000_000 < end
    ensures Weighted(Mids(g), Weights(g, end)) == TimeSum(g, g[0].timeMs * 1_000_000, end)
  {
    TimeSumOfFirst(g, g[0].timeMs * 1_000_000, end);
    var weights, mids := Weights(g, end), Mids(g);
    assert Weights(g[1..], end) == [] && TickNs(g[0]) == g[0].timeMs * 1_000_000;
    assert weights == [end - g[0].timeMs * 1_000_000];
    assert mids == [g[0].mid];
    assert weights[1..] == [] && mids[1..] == [];
  }

  lemma {:induction false} WeightedIsTimeSum(g: seq<Tick>, end: int)
    requires g != [] && SortedBy(g, TickLeq) && forall t :: t in g ==> t.timeMs * 1_000_000 < end
    ensures Weighted(Mids(g), Weights(g, end)) == TimeSum(g, g[0].timeMs * 1_000_000, end)
  {
    assert g[0] in g;
    if |g| == 1 {
      LastWeight(g, end);
    } else {
      assert g[1] in g && TickLeq(g[0], g[1]);
      WeightedIsTimeSum(g[1..], end);
      var p := TimeSumStep(g, end);
      var q := WeightedStep(g, end);
    }
  }

  lemma WeightedMeanBack(num: real, total: int, fallback: real)
    requires total > 0
    ensures WeightedMean(num, total, fallback) * total as real == num
  {
    DivideBack(num, total as real);
  }

  lemma GroupTwapIsMeanOf(g: seq<Tick>, end: int, span: int)
    requires g != [] && SortedBy(g, TickLeq) && forall t :: t in g ==> t.timeMs * 1_000_000 < end
    requires span == end - g[0].timeMs * 1_000_000
    ensures span > 0 && IsTimeAverage(Twap(g, end), g, end, span)
  {
    assert g[0] in g;
    WeightedIsTimeSum(g, end);
    WeightsTelescope(g, end);
    WeightedMeanBack(Weighted(Mids(g), Weights(g, end)), span, Mean(Mids(g)));
  }

  /**
   * The TWAP is the average over time of the mid in force: times the nanoseconds from the first quote of
   * the bucket to its end, it is the sum of the mid in force at each of them.
   */
  lemma TwapIsTimeAverage(ticks: seq<Tick>, w: int, b: int, lib: Library) returns (g: seq<Tick>, span: int)
    requires w > 0 && Mt5BarAt(ticks, w, b, lib).Some?
    ensures g == TickGroup(ticks, w, b) && g != [] && span == b + w - g[0].timeMs * 1_000_000 > 0
    ensures IsTimeAverage(Mt5BarAt(ticks, w, b, lib).value.midTwap, g, b + w, span)
  {
    g := BarOfGroup(ticks, w, b, lib);
    TicksEndInBucket(ticks, w, b);
    GroupsAreSorted([], ticks, w, b);
    span := b + w - g[0].timeMs * 1_000_000;
    GroupTwapIsMeanOf(g, b + w, span);
    TwapOfBar(g, w, b, lib);
  }

  /** Times the span, the number is the sum over time of the mid in force. */
  ghost predicate IsTimeAverage(twap: real, g: seq<Tick>, end: int, span: int)
    requires g != []
  {
    twap * span as real == TimeSum(g, g[0].timeMs * 1_000_000, end)
  }

  lemma TwapOfBar(g: seq<Tick>, w: int, b: int, lib: Library)
    requires g != []
    ensures Mt5BarOf(g, b, w, lib).midTwap == Twap(g, b + w)
  {
  }

  lemma BarOfGroup(ticks: seq<Tick>, w: int, b: int, lib: Library) returns (g: seq<Tick>)
    requires Mt5BarAt(ticks, w, b, lib).Some?
    ensures g == TickGroup(ticks, w, b) && g != [] && Mt5BarAt(ticks, w, b, lib).value == Mt5BarOf(g, b, w, lib)
  {
    g := TickGroup(ticks, w, b);
  }

  // ----- quote bars

  function QuoteWithin(w: int, b: int): Tick -> bool { (t: Tick) => b <= t.timeMs * 1_000_000 < b + w }

  /** The time-ordered quotes of a bucket are a sorted arrangement of the quotes in its half-open range. */
  lemma QuotesAreBucket(ticks: seq<Tick>, w: int, b: int)
    requires w > 0 && b % w == 0
    ensures TickGroup(ticks, w, b) == SortBy(Filter(ticks, QuoteWithin(w, b)), TickLeq)
    ensures |TickGroup(ticks, w, b)| == |Filter(ticks, QuoteWithin(w, b))|
  {
    TimeOrder();
    FilterSort(ticks, TickLeq, TickIn(w, b));
    forall t: Tick ensures TickIn(w, b)(t) <==> QuoteWithin(w, b)(t) { BucketIsRange(TickNs(t), w, b); }
    FilterEqual(ticks, TickIn(w, b), QuoteWithin(w, b));
    SortPermutes(Filter(ticks, QuoteWithin(w, b)), TickLeq);
  }

  /** One number per quote, in time order. */
  function Values(g: seq<Tick>, f: Tick -> real): (r: seq<real>)
    ensures |r| == |g| && forall i :: 0 <= i < |r| ==> r[i] == f(g[i])
  {
    seq(|g|, i requires 0 <= i < |g| => f(g[i]))
  }

  lemma {:induction false} ValuesSum(g: seq<Tick>, f: Tick -> real)
    ensures RealSum(Values(g, f), Id) == RealSum(g, f)
  {
    if g != [] {
      ValuesSum(g[1..], f);
      assert Values(g, f)[1..] == Values(g[1..], f);
    }
  }

  /** The same quotes in some order: nothing that does not depend on order differs. */
  ghost predicate SameQuotes(g: seq<Tick>, all: seq<Tick>) {
    && |g| == |all| && (forall t :: t in g <==> t in all)
    && forall f: Tick -> real :: RealSum(g, f) == RealSum(all, f)
  }

  lemma GroupHasBucketQuotes(ticks: seq<Tick>, w: int, b: int)
    requires w > 0 && b % w == 0
    ensures SameQuotes(TickGroup(ticks, w, b), Filter(ticks, QuoteWithin(w, b)))
  {
    var all := Filter(ticks, QuoteWithin(w, b));
    QuotesAreBucket(ticks, w, b);
    SortMembers(all, TickLeq);
    forall f: Tick -> real ensures RealSum(TickGroup(ticks, w, b), f) == RealSum(all, f) {
      SortSum(all, TickLeq, (t: Tick) => 0, f);
    }
  }

  ghost predicate IsMeanOf(mean: real, total: real, n: nat) { mean * n as real == total }

  lemma MeanOfValues(g: seq<Tick>, all: seq<Tick>, f: Tick -> real)
    requires g != [] && SameQuotes(g, all)
    ensures IsMeanOf(Mean(Values(g, f)), RealSum(all, f), |all|)
  {
    ValuesSum(g, f);
    DivideBack(RealSum(g, f), |g| as real);
  }

  /** A number that all these quotes respect and one of them attains. */
  ghost predicate IsLeastOf(all: seq<Tick>, f: Tick -> real, x: real) {
    (exists t :: t in all && f(t) == x) && forall t :: t in all ==> x <= f(t)
  }

  ghost predicate IsGreatestOf(all: seq<Tick>, f: Tick -> real, x: real) {
    (exists t :: t in all && f(t) == x) && forall t :: t in all ==> f(t) <= x
  }

  lemma ExtremesOfValues(g: seq<Tick>, all: seq<Tick>, f: Tick -> real)
    requires g != [] && SameQuotes(g, all)
    ensures IsLeastOf(all, f, LeastOf(Values(g, f))) && IsGreatestOf(all, f, GreatestOf(Values(g, f)))
  {
    var i, j := ExtremesAttained(Values(g, f));
    assert g[i] in g && g[j] in g;
    forall t | t in all ensures LeastOf(Values(g, f)) <= f(t) <= GreatestOf(Values(g, f)) {
      assert t in g;
      var k: nat :| k < |g| && g[k] == t;
      ExtremesBound(Values(g, f), k);
    }
  }

  function MidOf(): Tick -> real { (t: Tick) => t.mid }
  function SpreadPriceOf(): Tick -> real { (t: Tick) => t.spreadPrice }
  function SpreadPointsOf(): Tick -> real { (t: Tick) => t.spreadPoints as real }
  function ResidualOf(): Tick -> real { (t: Tick) => t.residualMs as real }

  /** A summary of the quotes' spreads: extremes, average, and the library's two quantiles of the sample. */
  ghost predicate Summarises(s: Spread, g: seq<Tick>, all: seq<Tick>, f: Tick -> real, lib: Library) {
    && IsLeastOf(all, f, s.least) && IsGreatestOf(all, f, s.greatest) && IsMeanOf(s.mean, RealSum(all, f), |all|)
    && s.p50 == lib.quantile(Values(g, f), 0.5) && s.p95 == lib.quantile(Values(g, f), 0.95)
  }

  lemma SpreadSummarises(g: seq<Tick>, all: seq<Tick>, f: Tick -> real, lib: Library)
    requires g != [] && SameQuotes(g, all)
    ensures Summarises(SpreadOf(Values(g, f), lib), g, all, f, lib)
  {
    MeanOfValues(g, all, f);
    ExtremesOfValues(g, all, f);
  }

  lemma ColumnsAreValues(g: seq<Tick>)
    ensures Mids(g) == Values(g, MidOf()) && Residuals(g) == Values(g, ResidualOf())
    ensures SpreadPrices(g) == Values(g, SpreadPriceOf()) && SpreadPoints(g) == Values(g, SpreadPointsOf())
  {
  }

  /** The mids of a quote bar: lowest, highest and average over the quotes of its half-open range. */
  lemma QuoteMidsMean(ticks: seq<Tick>, w: int, b: int, lib: Library)
    requires w > 0 && b % w == 0 && Mt5BarAt(ticks, w, b, lib).Some?
    ensures var bar, all := Mt5BarAt(ticks, w, b, lib).value, Filter(ticks, QuoteWithin(w, b));
            && bar.start == b && bar.tickCount == |all|
            && IsLeastOf(all, MidOf(), bar.midMin) && IsGreatestOf(all, MidOf(), bar.midMax)
            && IsMeanOf(bar.midMean, RealSum(all, MidOf()), |all|)
  {
    var all := Filter(ticks, QuoteWithin(w, b));
    var g := BarOfGroup(ticks, w, b, lib);
    GroupHasBucketQuotes(ticks, w, b);
    ColumnsAreValues(g);
    MeanOfValues(g, all, MidOf());
    ExtremesOfValues(g, all, MidOf());
  }

  function IsSafe(): Tick -> bool { (t: Tick) => t.joinSafe }
  function IsLate(): Tick -> bool { (t: Tick) => t.latencyOutlier }

  /** The share times the whole is the part. */
  ghost predicate IsShare(share: real, part: nat, whole: nat) { whole > 0 && share * whole as real == part as real }

  /** A quote bar counts the join-safe quotes and the latency outliers of its half-open range, and the ratio is the share. */
  lemma QuoteCountsMean(ticks: seq<Tick>, w: int, b: int, lib: Library)
    requires w > 0 && b % w == 0 && Mt5BarAt(ticks, w, b, lib).Some?
    ensures var bar, all := Mt5BarAt(ticks, w, b, lib).value, Filter(ticks, QuoteWithin(w, b));
            && bar.joinSafeCount == |Filter(all, IsSafe())| && bar.latencyOutliers == |Filter(all, IsLate())|
            && IsShare(bar.joinSafeRatio, |Filter(all, IsSafe())|, |all|)
  {
    var all := Filter(ticks, QuoteWithin(w, b));
    RangeIsBucket(ticks, w, b);
    var bar := Mt5Counts(ticks, w, b, lib);
    var g := BarOfGroup(ticks, w, b, lib);
    FilterEqual(all, IsJoinSafe, IsSafe());
    FilterEqual(all, IsOutlier, IsLate());
    RatioOfBar(bar, |Filter(all, IsSafe())|, |all|);
  }

  lemma RangeIsBucket(ticks: seq<Tick>, w: int, b: int)
    requires w > 0 && b % w == 0
    ensures Filter(ticks, TickIn(w, b)) == Filter(ticks, QuoteWithin(w, b))
  {
    forall t: Tick ensures TickIn(w, b)(t) <==> QuoteWithin(w, b)(t) { BucketIsRange(TickNs(t), w, b); }
    FilterEqual(ticks, TickIn(w, b), QuoteWithin(w, b));
  }

  lemma RatioOfBar(bar: Mt5Bar, part: nat, whole: nat)
    requires RatioIsShare(bar) && bar.tickCount == whole > 0 && bar.joinSafeCount == part
    ensures IsShare(bar.joinSafeRatio, part, whole)
  {
  }

  /** Spreads and residuals of a quote bar, over the same quotes. */
  lemma QuoteSpreadsMean(ticks: seq<Tick>, w: int, b: int, lib: Library)
    requires w > 0 && b % w == 0 && Mt5BarAt(ticks, w, b, lib).Some?
    ensures var bar, g, all := Mt5BarAt(ticks, w, b, lib).value, TickGroup(ticks, w, b), Filter(ticks, QuoteWithin(w, b));
            && Summarises(bar.spreadPrice, g, all, SpreadPriceOf(), lib)
            && Summarises(bar.spreadPoints, g, all, SpreadPointsOf(), lib)
            && IsGreatestOf(all, ResidualOf(), bar.residualMax)
            && bar.residualP50 == lib.quantile(Values(g, ResidualOf()), 0.5)
            && bar.residualP95 == lib.quantile(Values(g, ResidualOf()), 0.95)
  {
    var all := Filter(ticks, QuoteWithin(w, b));
    var g := BarOfGroup(ticks, w, b, lib);
    GroupHasBucketQuotes(ticks, w, b);
    ColumnsAreValues(g);
    SpreadSummarises(g, all, SpreadPriceOf(), lib);
    SpreadSummarises(g, all, SpreadPointsOf(), lib);
    ExtremesOfValues(g, all, ResidualOf());
  }

  // ----- trade sizes

  lemma LargestIsAttained(g: seq<Trade>)
    requires g != []
    ensures (exists t :: t in g && t.size == LargestSize(g)) && forall t :: t in g ==> t.size <= LargestSize(g)
  {
    if |g| > 1 {
      LargestIsAttained(g[1..]);
      assert forall t :: t in g <==> t == g[0] || t in g[1..];
    } else {
      assert g[0] in g;
    }
  }

  /** The separately grouped statistics: largest and average size, the library's 99th percentile, and the sample deviation. */
  lemma SizeStatsMean(g: seq<Trade>, lib: Library)
    requires g != []
    ensures var s, sizes := SizeStatsOf(g, lib), seq(|g|, i requires 0 <= i < |g| => g[i].size as real);
            && (exists t :: t in g && t.size == s.largest) && (forall t :: t in g ==> t.size <= s.largest)
            && MomentReadings.IsAverage(s.mean, sizes, MomentReadings.Itself())
            && s.p99 == lib.quantile(sizes, 0.99)
            && (s.std.Some? <==> |g| >= 2)
            && (s.std.Some? ==> exists v :: MomentReadings.IsSampleVariance(v, s.mean, sizes) && s.std.value == lib.root(v))
  {
    var sizes := Sizes(g);
    LargestIsAttained(g);
    MomentReadings.MeanIsAverage(sizes);
    if |sizes| >= 2 { MomentReadings.VarianceIsSample(sizes); }
  }

  /** The statistics are taken over the valid trades of the half-open bucket, in arrival order. */
  lemma ArrivalIsBucket(trades: seq<Trade>, w: int, b: int)
    requires w > 0 && b % w == 0
    ensures ArrivalGroup(trades, w, b) == Filter(trades, Within(w, b))
  {
    forall t: Trade ensures t.valid && TradeIn(w, b)(t) <==> Within(w, b)(t) { BucketIsRange(t.timeNs, w, b); }
    FilterOfFilter(trades, IsValid, TradeIn(w, b), Within(w, b));
  }
}
