/** Time bars over CME trades and MT5 quotes. */
module BarAggregation {
  import opened Sequences
  import opened Arithmetic
  import opened Moments
  import opened Units

  datatype Side = Buy | Sell | UnknownSide

  datatype Trade = Trade(timeNs: int, price: real, size: int, side: Side, valid: bool)

  datatype Tick = Tick(timeMs: int, joinSafe: bool, mid: real, spreadPrice: real, spreadPoints: int, residualMs: int, latencyOutlier: bool)

  /** A trade is marked valid at ingestion only with a positive price and a positive size. */
  ghost predicate ValidMeansPositive(trades: seq<Trade>) {
    forall t :: t in trades && t.valid ==> t.price > 0.0 && t.size > 0
  }

  /** The numeric routines of the data-frame library: square root and sample quantile. */
  datatype Library = Library(root: real -> real, quantile: (seq<real>, real) -> real)

  function Bucket(t: int, w: int): int
    requires w > 0
  {
    t / w * w
  }

  lemma BucketBounds(t: int, w: int)
    requires w > 0
    ensures Bucket(t, w) <= t < Bucket(t, w) + w
    ensures Bucket(t, w) % w == 0
  {
    assert t == t / w * w + t % w;
    MultipleOf(t / w, w);
  }

  lemma MultipleOf(k: int, w: int)
    requires w > 0
    ensures k * w % w == 0
  {
    var q := k * w;
    assert q == q / w * w + q % w;
    var d := k - q / w;
    assert d * w == q % w;
    SmallMultipleIsZero(d, w);
  }

  /** A time falls into an aligned bucket exactly when it lies in its half-open range. */
  lemma BucketIsRange(t: int, w: int, b: int)
    requires w > 0 && b % w == 0
    ensures Bucket(t, w) == b <==> b <= t < b + w
  {
    BucketBounds(t, w);
    if b <= t < b + w { AlignedWithinOne(Bucket(t, w), b, w); }
  }

  lemma AlignedWithinOne(a: int, b: int, w: int)
    requires w > 0 && a % w == 0 && b % w == 0 && -w < a - b < w
    ensures a == b
  {
    var d := a / w - b / w;
    assert a == a / w * w && b == b / w * w;
    assert d * w == a - b;
    SmallMultipleIsZero(d, w);
  }

  /** Aligned starts that differ are at least one bucket apart. */
  lemma AlignedApart(a: int, b: int, w: int)
    requires w > 0 && a % w == 0 && b % w == 0 && a < b
    ensures a + w <= b
  {
    if a + w > b { AlignedWithinOne(a, b, w); }
  }

  // ----- groups

  predicate TradeLeq(a: Trade, b: Trade) { a.timeNs <= b.timeNs }
  predicate IsValid(t: Trade) { t.valid }
  function TickNs(t: Tick): int { t.timeMs * MS_TO_NS }
  predicate TickLeq(a: Tick, b: Tick) { TickNs(a) <= TickNs(b) }

  function TradeIn(w: int, b: int): Trade -> bool { (t: Trade) => w > 0 && Bucket(t.timeNs, w) == b }
  function TickIn(w: int, b: int): Tick -> bool { (t: Tick) => w > 0 && Bucket(TickNs(t), w) == b }

  function SortedTrades(trades: seq<Trade>): seq<Trade> { SortBy(Filter(trades, IsValid), TradeLeq) }
  function SortedTicks(ticks: seq<Tick>): seq<Tick> { SortBy(ticks, TickLeq) }

  /** The valid trades of one bucket in time order. */
  function TradeGroup(trades: seq<Trade>, w: int, b: int): seq<Trade> { Filter(SortedTrades(trades), TradeIn(w, b)) }

  /** The quotes of one bucket in time order. */
  function TickGroup(ticks: seq<Tick>, w: int, b: int): seq<Tick> { Filter(SortedTicks(ticks), TickIn(w, b)) }

  lemma TradeGroupMembers(trades: seq<Trade>, w: int, b: int)
    requires w > 0
    ensures forall t :: t in TradeGroup(trades, w, b) <==> t in trades && t.valid && Bucket(t.timeNs, w) == b
  {
    FilterMembers(SortedTrades(trades), TradeIn(w, b));
    FilterMembers(trades, IsValid);
    SortMembers(Filter(trades, IsValid), TradeLeq);
  }

  lemma TickGroupMembers(ticks: seq<Tick>, w: int, b: int)
    requires w > 0
    ensures forall t :: t in TickGroup(ticks, w, b) <==> t in ticks && Bucket(TickNs(t), w) == b
  {
    FilterMembers(SortedTicks(ticks), TickIn(w, b));
    SortMembers(ticks, TickLeq);
  }

  lemma {:induction false} FilterKeepsSorted<T(!new)>(s: seq<T>, leq: (T, T) -> bool, p: T -> bool)
    requires SortedBy(s, leq)
    ensures SortedBy(Filter(s, p), leq)
  {
    if s != [] {
      FilterKeepsSorted(s[1..], leq, p);
      FilterMembers(s[1..], p);
      var f := Filter(s[1..], p);
      forall i | 0 <= i < |f| ensures leq(s[0], f[i]) {
        assert f[i] in f;
        assert f[i] in s[1..];
      }
    }
  }

  lemma GroupsAreSorted(trades: seq<Trade>, ticks: seq<Tick>, w: int, b: int)
    ensures SortedBy(TradeGroup(trades, w, b), TradeLeq)
    ensures SortedBy(TickGroup(ticks, w, b), TickLeq)
  {
    SortByIsSorted(Filter(trades, IsValid), TradeLeq);
    FilterKeepsSorted(SortedTrades(trades), TradeLeq, TradeIn(w, b));
    SortByIsSorted(ticks, TickLeq);
    FilterKeepsSorted(SortedTicks(ticks), TickLeq, TickIn(w, b));
  }

  // ----- CME bars

  datatype CmeBar = CmeBar(
    start: int, count: nat, totalVolume: int, buyVolume: int, sellVolume: int, unknownVolume: int,
    buyCount: nat, sellCount: nat, unknownCount: nat, netSignedVolume: int,
    signedVolumeRatio: Option<real>, vwap: Option<real>, first: real, last: real, high: real, low: real)

  function SizeOf(t: Trade): int { t.size }
  function SizeIf(side: Side): Trade -> int { (t: Trade) => if t.side == side then t.size else 0 }
  function OneIf(side: Side): Trade -> int { (t: Trade) => if t.side == side then 1 else 0 }
  function Notional(t: Trade): real { t.price * t.size as real }

  function Max(a: real, b: real): real { if a >= b then a else b }
  function Min(a: real, b: real): real { if a <= b then a else b }

  function LeastOf(s: seq<real>): real
    requires s != []
  {
    if |s| == 1 then s[0] else Min(s[0], LeastOf(s[1..]))
  }

  function GreatestOf(s: seq<real>): real
    requires s != []
  {
    if |s| == 1 then s[0] else Max(s[0], GreatestOf(s[1..]))
  }

  lemma {:induction false} ExtremesBound(s: seq<real>, i: nat)
    requires i < |s|
    ensures LeastOf(s) <= s[i] <= GreatestOf(s)
  {
    if |s| > 1 { ExtremesBound(s[1..], if i == 0 then 0 else i - 1); }
  }

  lemma {:induction false} ExtremesAttained(s: seq<real>) returns (i: nat, j: nat)
    requires s != []
    ensures i < |s| && s[i] == LeastOf(s) && j < |s| && s[j] == GreatestOf(s)
  {
    if |s| == 1 {
      i, j := 0, 0;
    } else {
      i, j := ExtremesAttained(s[1..]);
      i, j := if s[0] == LeastOf(s) then 0 else i + 1, if s[0] == GreatestOf(s) then 0 else j + 1;
    }
  }

  lemma {:induction false} ExtremesAppend(a: seq<real>, b: seq<real>)
    requires a != [] && b != []
    ensures LeastOf(a + b) == Min(LeastOf(a), LeastOf(b)) && GreatestOf(a + b) == Max(GreatestOf(a), GreatestOf(b))
  {
    assert (a + b)[0] == a[0] && (a + b)[1..] == a[1..] + b;
    if |a| == 1 {
      assert a[1..] + b == b;
    } else {
      ExtremesAppend(a[1..], b);
    }
  }

  function Prices(g: seq<Trade>): (r: seq<real>)
    ensures |r| == |g|
  {
    seq(|g|, i requires 0 <= i < |g| => g[i].price)
  }

  lemma PricesAppend(a: seq<Trade>, b: seq<Trade>)
    ensures Prices(a + b) == Prices(a) + Prices(b)
  {
  }

  function Nat(x: int): nat { if x < 0 then 0 else x }

  function VwapOf(notional: real, volume: int): Option<real> {
    if volume > 0 then Some(notional / volume as real) else None
  }

  function SignedRatio(net: int, total: int): Option<real> {
    if total > 0 then Some(net as real / total as real) else None
  }

  function CmeBarOf(g: seq<Trade>, start: int): CmeBar
    requires g != []
  {
    var total, buy, sell := Sum(g, SizeOf), Sum(g, SizeIf(Buy)), Sum(g, SizeIf(Sell));
    CmeBar(start, |g|, total, buy, sell, Sum(g, SizeIf(UnknownSide)),
           Nat(Sum(g, OneIf(Buy))), Nat(Sum(g, OneIf(Sell))), Nat(Sum(g, OneIf(UnknownSide))), buy - sell,
           SignedRatio(buy - sell, total),
           VwapOf(RealSum(g, Notional), total),
           g[0].price, g[|g| - 1].price, GreatestOf(Prices(g)), LeastOf(Prices(g)))
  }

  function BarOrNone(g: seq<Trade>, start: int): Option<CmeBar> {
    if g == [] then None else Some(CmeBarOf(g, start))
  }

  /** The bar of one bucket, absent when the bucket holds no valid trade. */
  function CmeBarAt(trades: seq<Trade>, w: int, b: int): Option<CmeBar> {
    BarOrNone(TradeGroup(trades, w, b), b)
  }

  function CmeKeys(trades: seq<Trade>, w: int): set<int>
    requires w > 0
  {
    set t | t in trades && t.valid :: Bucket(t.timeNs, w)
  }

  lemma CmeKeysExact(trades: seq<Trade>, w: int, b: int)
    requires w > 0
    ensures b in CmeKeys(trades, w) <==> CmeBarAt(trades, w, b).Some?
    ensures b in CmeKeys(trades, w) ==> b % w == 0
  {
    TradeGroupMembers(trades, w, b);
    var g := TradeGroup(trades, w, b);
    if g != [] { assert g[0] in g; }
    if b in CmeKeys(trades, w) {
      var t :| t in trades && t.valid && Bucket(t.timeNs, w) == b;
      assert t in g;
      BucketBounds(t.timeNs, w);
    }
  }

  // ----- VWAP and the volume split

  lemma {:induction false} PositiveSizes(g: seq<Trade>)
    requires g != [] && forall t :: t in g ==> t.size > 0
    ensures Sum(g, SizeOf) > 0
  {
    if |g| > 1 { PositiveSizes(g[1..]); }
    assert g[0] in g;
  }

  /** A total that lies between the bounds, each scaled by the weight. */
  ghost predicate ScaledBetween(lo: real, hi: real, total: real, weight: int) {
    lo * weight as real <= total <= hi * weight as real
  }

  lemma {:induction false} NotionalBounds(g: seq<Trade>, lo: real, hi: real)
    requires forall i :: 0 <= i < |g| ==> lo <= g[i].price <= hi && g[i].size > 0
    ensures ScaledBetween(lo, hi, RealSum(g, Notional), Sum(g, SizeOf))
  {
    if g != [] {
      NotionalBounds(g[1..], lo, hi);
      ScaledStep(lo, hi, g[0].price, g[0].size, RealSum(g[1..], Notional), Sum(g[1..], SizeOf));
    }
  }

  lemma ScaledStep(lo: real, hi: real, x: real, weight: int, total: real, rest: int)
    requires lo <= x <= hi && weight >= 0 && ScaledBetween(lo, hi, total, rest)
    ensures ScaledBetween(lo, hi, x * weight as real + total, weight + rest)
  {
    ProductMonotone(lo, x, weight as real);
    ProductMonotone(x, hi, weight as real);
    Distribute(lo, weight as real, rest as real);
    Distribute(hi, weight as real, rest as real);
    assert (weight + rest) as real == weight as real + rest as real;
  }

  lemma PricesBounded(g: seq<Trade>)
    requires g != [] && forall t :: t in g ==> t.size > 0
    ensures forall i :: 0 <= i < |g| ==> LeastOf(Prices(g)) <= g[i].price <= GreatestOf(Prices(g)) && g[i].size > 0
  {
    forall i | 0 <= i < |g| ensures LeastOf(Prices(g)) <= g[i].price <= GreatestOf(Prices(g)) && g[i].size > 0 {
      ExtremesBound(Prices(g), i);
      assert g[i] in g;
    }
  }

  lemma VwapBetween(num: real, volume: int, lo: real, hi: real)
    requires volume > 0 && ScaledBetween(lo, hi, num, volume)
    ensures VwapOf(num, volume).Some? && lo <= VwapOf(num, volume).value <= hi
  {
    QuotientBetween(lo, hi, num, volume as real);
  }

  lemma GroupVwap(g: seq<Trade>)
    requires g != [] && forall t :: t in g ==> t.size > 0
    ensures Sum(g, SizeOf) > 0 && VwapOf(RealSum(g, Notional), Sum(g, SizeOf)).Some?
    ensures LeastOf(Prices(g)) <= VwapOf(RealSum(g, Notional), Sum(g, SizeOf)).value <= GreatestOf(Prices(g))
  {
    PositiveSizes(g);
    PricesBounded(g);
    var lo, hi := LeastOf(Prices(g)), GreatestOf(Prices(g));
    NotionalBounds(g, lo, hi);
    VwapBetween(RealSum(g, Notional), Sum(g, SizeOf), lo, hi);
  }

  /** VWAP is a convex mean: present in every bar and between low and high. */
  lemma VwapWithinRange(trades: seq<Trade>, w: int, b: int)
    requires w > 0 && ValidMeansPositive(trades) && CmeBarAt(trades, w, b).Some?
    ensures var bar := CmeBarAt(trades, w, b).value;
            bar.totalVolume > 0 && bar.vwap.Some? && bar.low <= bar.vwap.value <= bar.high
  {
    TradeGroupMembers(trades, w, b);
    GroupVwap(TradeGroup(trades, w, b));
  }

  lemma {:induction false} SidesPartition(g: seq<Trade>)
    ensures Sum(g, SizeIf(Buy)) + Sum(g, SizeIf(Sell)) + Sum(g, SizeIf(UnknownSide)) == Sum(g, SizeOf)
    ensures Sum(g, OneIf(Buy)) + Sum(g, OneIf(Sell)) + Sum(g, OneIf(UnknownSide)) == |g|
    ensures Sum(g, OneIf(Buy)) >= 0 && Sum(g, OneIf(Sell)) >= 0 && Sum(g, OneIf(UnknownSide)) >= 0
  {
    if g != [] { SidesPartition(g[1..]); }
  }

  /** Buy, sell and unknown volumes and counts add up to the totals. */
  lemma BarSplitsExactly(g: seq<Trade>, start: int)
    requires g != []
    ensures var bar := CmeBarOf(g, start);
            && bar.buyVolume + bar.sellVolume + bar.unknownVolume == bar.totalVolume
            && bar.buyCount + bar.sellCount + bar.unknownCount == bar.count
  {
    SidesPartition(g);
  }

  // ----- merging bars

  /** Price times size, recovered from two bars by weighting each VWAP with its volume. */
  function MergedNotional(a: CmeBar, b: CmeBar): real
    requires a.vwap.Some? && b.vwap.Some?
  {
    a.vwap.value * a.totalVolume as real + b.vwap.value * b.totalVolume as real
  }

  /** The bar of two adjacent spans, from their bars alone. */
  function MergeBars(a: CmeBar, b: CmeBar): CmeBar {
    var total, buy, sell := a.totalVolume + b.totalVolume, a.buyVolume + b.buyVolume, a.sellVolume + b.sellVolume;
    CmeBar(a.start, a.count + b.count, total, buy, sell, a.unknownVolume + b.unknownVolume,
           a.buyCount + b.buyCount, a.sellCount + b.sellCount, a.unknownCount + b.unknownCount, buy - sell,
           SignedRatio(buy - sell, total),
           if a.vwap.Some? && b.vwap.Some? then VwapOf(MergedNotional(a, b), total) else None,
           a.first, b.last, Max(a.high, b.high), Min(a.low, b.low))
  }

  lemma SideSumsAppend(a: seq<Trade>, b: seq<Trade>, side: Side)
    ensures Sum(a + b, SizeIf(side)) == Sum(a, SizeIf(side)) + Sum(b, SizeIf(side))
    ensures Sum(a + b, OneIf(side)) == Sum(a, OneIf(side)) + Sum(b, OneIf(side))
  {
    SumAppend(a, b, SizeIf(side));
    SumAppend(a, b, OneIf(side));
  }

  lemma VwapMerges(p: CmeBar, q: CmeBar, np: real, nq: real)
    requires p.totalVolume > 0 && p.vwap == VwapOf(np, p.totalVolume)
    requires q.totalVolume > 0 && q.vwap == VwapOf(nq, q.totalVolume)
    ensures MergedNotional(p, q) == np + nq
  {
    DivideBack(np, p.totalVolume as real);
    DivideBack(nq, q.totalVolume as real);
  }

  lemma AppendMembers(a: seq<Trade>, b: seq<Trade>)
    requires forall t :: t in a + b ==> t.size > 0
    ensures (forall t :: t in a ==> t.size > 0) && forall t :: t in b ==> t.size > 0
  {
    assert forall t :: t in a ==> t in a + b;
    assert forall t :: t in b ==> t in a + b;
  }

  lemma VolumesAppend(a: seq<Trade>, b: seq<Trade>, startA: int, startB: int)
    requires a != [] && b != []
    ensures var x, y := CmeBarOf(a + b, startA), MergeBars(CmeBarOf(a, startA), CmeBarOf(b, startB));
            && x.totalVolume == y.totalVolume && x.buyVolume == y.buyVolume && x.sellVolume == y.sellVolume
            && x.unknownVolume == y.unknownVolume && x.buyCount == y.buyCount && x.sellCount == y.sellCount
            && x.unknownCount == y.unknownCount && x.netSignedVolume == y.netSignedVolume
            && x.signedVolumeRatio == y.signedVolumeRatio
  {
    SumAppend(a, b, SizeOf);
    SideSumsAppend(a, b, Buy);
    SideSumsAppend(a, b, Sell);
    SideSumsAppend(a, b, UnknownSide);
    SidesPartition(a);
    SidesPartition(b);
  }

  lemma VwapAppends(a: seq<Trade>, b: seq<Trade>, startA: int, startB: int)
    requires a != [] && b != [] && forall t :: t in a + b ==> t.size > 0
    ensures CmeBarOf(a + b, startA).vwap == MergeBars(CmeBarOf(a, startA), CmeBarOf(b, startB)).vwap
  {
    AppendMembers(a, b);
    PositiveSizes(a);
    PositiveSizes(b);
    SumAppend(a, b, SizeOf);
    RealSumAppend(a, b, Notional);
    VwapMerges(CmeBarOf(a, startA), CmeBarOf(b, startB), RealSum(a, Notional), RealSum(b, Notional));
  }

  lemma BarOfAppend(a: seq<Trade>, b: seq<Trade>, startA: int, startB: int)
    requires a != [] && b != [] && forall t :: t in a + b ==> t.size > 0
    ensures CmeBarOf(a + b, startA) == MergeBars(CmeBarOf(a, startA), CmeBarOf(b, startB))
  {
    PricesAppend(a, b);
    ExtremesAppend(Prices(a), Prices(b));
    VolumesAppend(a, b, startA, startB);
    VwapAppends(a, b, startA, startB);
  }

  function MergeMaybe(a: Option<CmeBar>, b: Option<CmeBar>): Option<CmeBar> {
    if a.None? then b else if b.None? then a else Some(MergeBars(a.value, b.value))
  }

  function Rebase(bar: Option<CmeBar>, start: int): Option<CmeBar> {
    if bar.None? then None else Some(bar.value.(start := start))
  }

  function Fold<T>(part: nat -> T, merge: (T, T) -> T, empty: T, m: nat): T {
    if m == 0 then empty else merge(Fold(part, merge, empty, m - 1), part(m - 1))
  }

  lemma {:induction false} FoldEqual<T>(p: nat -> T, q: nat -> T, merge: (T, T) -> T, empty: T, m: nat)
    requires forall k: nat :: p(k) == q(k)
    ensures Fold(p, merge, empty, m) == Fold(q, merge, empty, m)
  {
    if m > 0 { FoldEqual(p, q, merge, empty, m - 1); }
  }

  /** The size-w bars from b on, each dated at b. */
  function PartBar(trades: seq<Trade>, w: int, b: int): nat -> Option<CmeBar> {
    (k: nat) => Rebase(CmeBarAt(trades, w, BucketStart(w, b, k)), b)
  }

  /** The bars of size w from b on, m of them, merged left to right. */
  function MergedBars(trades: seq<Trade>, w: int, b: int, m: nat): Option<CmeBar> {
    Fold(PartBar(trades, w, b), MergeMaybe, None, m)
  }

  /** The start of the k-th bucket after b. */
  function BucketStart(w: int, b: int, k: nat): int { if k == 0 then b else BucketStart(w, b, k - 1) + w }

  function TradeBetween(lo: int, hi: int): Trade -> bool { (t: Trade) => lo <= t.timeNs < hi }

  lemma {:induction false} RangeSplits(s: seq<Trade>, lo: int, mid: int, hi: int)
    requires SortedBy(s, TradeLeq) && lo <= mid <= hi
    ensures Filter(s, TradeBetween(lo, hi)) == Filter(s, TradeBetween(lo, mid)) + Filter(s, TradeBetween(mid, hi))
  {
    if s != [] {
      RangeSplits(s[1..], lo, mid, hi);
      if mid <= s[0].timeNs {
        forall t | t in s ensures !TradeBetween(lo, mid)(t) {
          var i :| 0 <= i < |s| && s[i] == t;
          if i > 0 { assert TradeLeq(s[0], s[i]); }
        }
        FilterNone(s, TradeBetween(lo, mid));
        FilterEqual(s, TradeBetween(lo, hi), TradeBetween(mid, hi));
      }
    }
  }

  lemma GroupIsRange(trades: seq<Trade>, w: int, b: int)
    requires w > 0 && b % w == 0
    ensures TradeGroup(trades, w, b) == Filter(SortedTrades(trades), TradeBetween(b, b + w))
  {
    forall t: Trade ensures TradeIn(w, b)(t) == TradeBetween(b, b + w)(t) { BucketIsRange(t.timeNs, w, b); }
    FilterEqual(SortedTrades(trades), TradeIn(w, b), TradeBetween(b, b + w));
  }

  lemma {:induction false} StepAligned(b: int, w: int, k: nat)
    requires w > 0 && b % w == 0
    ensures BucketStart(w, b, k) == b + k * w && BucketStart(w, b, k) % w == 0
  {
    if k > 0 {
      StepAligned(b, w, k - 1);
      NextAligned(BucketStart(w, b, k - 1), w);
    }
  }

  lemma NextAligned(x: int, w: int)
    requires w > 0 && x % w == 0
    ensures (x + w) % w == 0
  {
    assert x == x / w * w;
    assert x + w == (x / w + 1) * w;
    MultipleOf(x / w + 1, w);
  }

  predicate AllPositive(g: seq<Trade>) { forall t :: t in g ==> t.size > 0 }

  /** The bar of a concatenation is the merge of the bars of its parts. */
  ghost predicate MergesAt<T>(barOf: (seq<Trade>, int) -> T, merge: (T, T) -> T, x: seq<Trade>, y: seq<Trade>, b: int) {
    AllPositive(x + y) ==> barOf(x + y, b) == merge(barOf(x, b), barOf(y, b))
  }

  ghost predicate Merges<T(!new)>(barOf: (seq<Trade>, int) -> T, merge: (T, T) -> T) {
    forall x, y, b :: MergesAt(barOf, merge, x, y, b)
  }

  /** The trades of the k-th size-w bucket after b, and of all buckets before it. */
  function SpanOf(s: seq<Trade>, w: int, b: int, k: nat): seq<Trade> {
    Filter(s, TradeBetween(BucketStart(w, b, k), BucketStart(w, b, k) + w))
  }

  function SpanTo(s: seq<Trade>, w: int, b: int, k: nat): seq<Trade> { Filter(s, TradeBetween(b, BucketStart(w, b, k))) }

  /** The bars of the size-w buckets from b on, over trades in time order. */
  function SpanBar<T>(s: seq<Trade>, barOf: (seq<Trade>, int) -> T, w: int, b: int): nat -> T {
    (k: nat) => barOf(SpanOf(s, w, b, k), b)
  }

  lemma {:induction false} StartsAhead(w: int, b: int, k: nat)
    requires w > 0
    ensures b <= BucketStart(w, b, k)
  {
    if k > 0 { StartsAhead(w, b, k - 1); }
  }

  lemma SpanGrows(s: seq<Trade>, w: int, b: int, k: nat)
    requires w > 0 && SortedBy(s, TradeLeq) && AllPositive(s)
    ensures SpanTo(s, w, b, k + 1) == SpanTo(s, w, b, k) + SpanOf(s, w, b, k)
    ensures AllPositive(SpanTo(s, w, b, k + 1)) && SpanTo(s, w, b, 0) == []
  {
    var mid := BucketStart(w, b, k);
    StartsAhead(w, b, k);
    RangeSplits(s, b, mid, mid + w);
    FilterMembers(s, TradeBetween(b, mid + w));
    FilterNone(s, TradeBetween(b, b));
  }

  lemma {:induction false} SpansFold<T(!new)>(s: seq<Trade>, barOf: (seq<Trade>, int) -> T, merge: (T, T) -> T, w: int, b: int, m: nat)
    requires w > 0 && SortedBy(s, TradeLeq) && AllPositive(s) && Merges(barOf, merge)
    ensures Fold(SpanBar(s, barOf, w, b), merge, barOf([], b), m) == barOf(SpanTo(s, w, b, m), b)
  {
    if m == 0 {
      SpanGrows(s, w, b, 0);
    } else {
      SpansFold(s, barOf, merge, w, b, m - 1);
      SpanGrows(s, w, b, m - 1);
      assert MergesAt(barOf, merge, SpanTo(s, w, b, m - 1), SpanOf(s, w, b, m - 1), b);
    }
  }

  lemma Redate(g: seq<Trade>, start: int, b: int)
    ensures Rebase(BarOrNone(g, start), b) == BarOrNone(g, b)
  {
  }

  lemma PartIsSpan(trades: seq<Trade>, w: int, b: int, k: nat)
    requires w > 0 && b % w == 0
    ensures PartBar(trades, w, b)(k) == SpanBar(SortedTrades(trades), BarOrNone, w, b)(k)
  {
    var start := BucketStart(w, b, k);
    calc {
      PartBar(trades, w, b)(k);
      Rebase(BarOrNone(TradeGroup(trades, w, start), start), b);
      { Redate(TradeGroup(trades, w, start), start, b); }
      BarOrNone(TradeGroup(trades, w, start), b);
      { SpanIsGroup(trades, w, b, k); }
      BarOrNone(SpanOf(SortedTrades(trades), w, b, k), b);
    }
  }

  lemma SpanIsGroup(trades: seq<Trade>, w: int, b: int, k: nat)
    requires w > 0 && b % w == 0
    ensures TradeGroup(trades, w, BucketStart(w, b, k)) == SpanOf(SortedTrades(trades), w, b, k)
  {
    StepAligned(b, w, k);
    GroupIsRange(trades, w, BucketStart(w, b, k));
  }

  lemma MergedIsSpan(trades: seq<Trade>, w: int, b: int, m: nat)
    requires w > 0 && b % w == 0 && ValidMeansPositive(trades)
    ensures MergedBars(trades, w, b, m) == BarOrNone(SpanTo(SortedTrades(trades), w, b, m), b)
  {
    var s := SortedTrades(trades);
    SortByIsSorted(Filter(trades, IsValid), TradeLeq);
    SortedArePositive(trades);
    BarsMerge();
    SpansFold(s, BarOrNone, MergeMaybe, w, b, m);
    forall k: nat ensures PartBar(trades, w, b)(k) == SpanBar(s, BarOrNone, w, b)(k) { PartIsSpan(trades, w, b, k); }
    FoldEqual(PartBar(trades, w, b), SpanBar(s, BarOrNone, w, b), MergeMaybe, None, m);
  }

  lemma BarsMerge()
    ensures Merges(BarOrNone, MergeMaybe)
  {
    forall x, y, b ensures MergesAt(BarOrNone, MergeMaybe, x, y, b) {
      if AllPositive(x + y) { SpanMerge(x, y, b); }
    }
  }

  lemma SpanMerge(x: seq<Trade>, y: seq<Trade>, b: int)
    requires AllPositive(x + y)
    ensures BarOrNone(x + y, b) == MergeMaybe(BarOrNone(x, b), BarOrNone(y, b))
  {
    if x == [] {
      assert x + y == y;
    } else if y == [] {
      assert x + y == x;
    } else {
      BarOfAppend(x, y, b, b);
    }
  }

  lemma SortedArePositive(trades: seq<Trade>)
    requires ValidMeansPositive(trades)
    ensures AllPositive(SortedTrades(trades))
  {
    FilterMembers(trades, IsValid);
    SortMembers(Filter(trades, IsValid), TradeLeq);
  }

  /** Bars roll up: for every m >= 1 a bar of size m * w is the merge of the size-w bars inside it. */
  lemma BarsRollUp(trades: seq<Trade>, w: int, m: nat, b: int)
    requires w > 0 && m >= 1 && ValidMeansPositive(trades)
    requires m * w > 0 && b % (m * w) == 0
    ensures CmeBarAt(trades, m * w, b) == MergedBars(trades, w, b, m)
  {
    CoarseIsFine(b, w, m);
    CoarseIsSpan(trades, w, m, b);
    MergedIsSpan(trades, w, b, m);
  }

  lemma CoarseIsSpan(trades: seq<Trade>, w: int, m: nat, b: int)
    requires w > 0 && m * w > 0 && b % w == 0 && b % (m * w) == 0
    ensures TradeGroup(trades, m * w, b) == SpanTo(SortedTrades(trades), w, b, m)
  {
    StepAligned(b, w, m);
    GroupIsRange(trades, m * w, b);
  }

  lemma CoarseIsFine(b: int, w: int, m: nat)
    requires w > 0 && m >= 1 && m * w > 0 && b % (m * w) == 0
    ensures b % w == 0
  {
    var q := b / (m * w);
    assert b == q * (m * w);
    assert q * (m * w) == q * m * w;
    MultipleOf(q * m, w);
  }

  // ----- volume over all bars

  function VolumeOf(bar: Option<CmeBar>): int { if bar.Some? then bar.value.totalVolume else 0 }

  function KeyVolume(trades: seq<Trade>, w: int, keys: seq<int>): int {
    if keys == [] then 0 else VolumeOf(CmeBarAt(trades, w, keys[0])) + KeyVolume(trades, w, keys[1..])
  }

  lemma BarVolume(trades: seq<Trade>, w: int, b: int)
    ensures VolumeOf(CmeBarAt(trades, w, b)) == Sum(TradeGroup(trades, w, b), SizeOf)
  {
  }

  function TradeInAny(w: int, keys: seq<int>): Trade -> bool { (t: Trade) => w > 0 && Bucket(t.timeNs, w) in keys }

  lemma {:induction false} SumSplits(s: seq<Trade>, p: Trade -> bool, q: Trade -> bool, r: Trade -> bool)
    requires forall t :: t in s ==> r(t) == (p(t) || q(t)) && !(p(t) && q(t))
    ensures Sum(Filter(s, r), SizeOf) == Sum(Filter(s, p), SizeOf) + Sum(Filter(s, q), SizeOf)
  {
    if s != [] {
      SumSplits(s[1..], p, q, r);
      assert s[0] in s;
    }
  }

  lemma {:induction false} KeyVolumeSums(trades: seq<Trade>, w: int, keys: seq<int>)
    requires w > 0 && Ascending(keys)
    ensures KeyVolume(trades, w, keys) == Sum(Filter(SortedTrades(trades), TradeInAny(w, keys)), SizeOf)
  {
    var s := SortedTrades(trades);
    if keys == [] {
      FilterNone(s, TradeInAny(w, keys));
    } else {
      KeyVolumeSums(trades, w, keys[1..]);
      BarVolume(trades, w, keys[0]);
      assert keys == [keys[0]] + keys[1..];
      assert keys[0] !in keys[1..];
      SumSplits(s, TradeIn(w, keys[0]), TradeInAny(w, keys[1..]), TradeInAny(w, keys));
    }
  }

  /** No volume is lost or counted twice: the bars' totals add up to the size of all valid trades. */
  lemma BarsConserveVolume(trades: seq<Trade>, w: int)
    requires w > 0
    ensures KeyVolume(trades, w, AscendingOf(CmeKeys(trades, w))) == Sum(Filter(trades, IsValid), SizeOf)
  {
    var keys, s := AscendingOf(CmeKeys(trades, w)), SortedTrades(trades);
    KeyVolumeSums(trades, w, keys);
    FilterMembers(trades, IsValid);
    SortMembers(Filter(trades, IsValid), TradeLeq);
    forall t | t in s ensures TradeInAny(w, keys)(t) {
      assert t in trades && t.valid;
      assert Bucket(t.timeNs, w) in CmeKeys(trades, w);
    }
    FilterAll(s, TradeInAny(w, keys));
    SortSum(Filter(trades, IsValid), TradeLeq, SizeOf, Notional);
  }

  // ----- trade size statistics of a bucket

  datatype SizeStats = SizeStats(largest: int, p99: real, mean: real, std: Option<real>)

  function Sizes(g: seq<Trade>): (r: seq<real>)
    ensures |r| == |g|
  {
    seq(|g|, i requires 0 <= i < |g| => g[i].size as real)
  }

  function LargestSize(g: seq<Trade>): int
    requires g != []
  {
    if |g| == 1 then g[0].size
    else
      var rest := LargestSize(g[1..]);
      if g[0].size >= rest then g[0].size else rest
  }

  /** The valid trades of one bucket in arrival order. */
  function ArrivalGroup(trades: seq<Trade>, w: int, b: int): seq<Trade> { Filter(Filter(trades, IsValid), TradeIn(w, b)) }

  function SizeStatsOf(g: seq<Trade>, lib: Library): SizeStats
    requires g != []
  {
    var sizes := Sizes(g);
    SizeStats(LargestSize(g), lib.quantile(sizes, 0.99), Mean(sizes),
              if |sizes| < 2 then None else Some(lib.root(Variance(sizes))))
  }

  // ----- MT5 bars

  datatype Spread = Spread(least: real, mean: real, p50: real, p95: real, greatest: real)

  datatype Mt5Bar = Mt5Bar(
    start: int, tickCount: nat, joinSafeCount: nat, joinSafeRatio: real,
    midFirst: real, midLast: real, midMin: real, midMax: real, midMean: real, midTwap: real,
    spreadPrice: Spread, spreadPoints: Spread, residualP50: real, residualP95: real, residualMax: real, latencyOutliers: nat)

  function Mids(g: seq<Tick>): (r: seq<real>)
    ensures |r| == |g| && forall i :: 0 <= i < |g| ==> r[i] == g[i].mid
  {
    seq(|g|, i requires 0 <= i < |g| => g[i].mid)
  }

  function SpreadPrices(g: seq<Tick>): (r: seq<real>)
    ensures |r| == |g|
  {
    seq(|g|, i requires 0 <= i < |g| => g[i].spreadPrice)
  }

  function SpreadPoints(g: seq<Tick>): (r: seq<real>)
    ensures |r| == |g|
  {
    seq(|g|, i requires 0 <= i < |g| => g[i].spreadPoints as real)
  }

  function Residuals(g: seq<Tick>): (r: seq<real>)
    ensures |r| == |g|
  {
    seq(|g|, i requires 0 <= i < |g| => g[i].residualMs as real)
  }

  function CountIf(g: seq<Tick>, p: Tick -> bool): nat { |Filter(g, p)| }
  predicate IsJoinSafe(t: Tick) { t.joinSafe }
  predicate IsOutlier(t: Tick) { t.latencyOutlier }

  /** How long each quote stands: until the next one, the last until the bucket ends; never negative. */
  function Weights(g: seq<Tick>, end: int): seq<int> {
    if g == [] then []
    else
      var next := if |g| == 1 then end else TickNs(g[1]);
      [if next - TickNs(g[0]) < 0 then 0 else next - TickNs(g[0])] + Weights(g[1..], end)
  }

  function Weighted(mids: seq<real>, weights: seq<int>): real {
    if mids == [] || weights == [] then 0.0 else mids[0] * weights[0] as real + Weighted(mids[1..], weights[1..])
  }

  function IntSum(s: seq<int>): int { if s == [] then 0 else s[0] + IntSum(s[1..]) }

  function Twap(g: seq<Tick>, end: int): real
    requires g != []
  {
    var weights := Weights(g, end);
    WeightedMean(Weighted(Mids(g), weights), IntSum(weights), Mean(Mids(g)))
  }

  function SpreadOf(s: seq<real>, lib: Library): Spread
    requires s != []
  {
    Spread(LeastOf(s), Mean(s), lib.quantile(s, 0.5), lib.quantile(s, 0.95), GreatestOf(s))
  }

  function ShareOf(part: nat, whole: nat): real
    requires whole > 0
  {
    part as real / whole as real
  }

  function Mt5BarOf(g: seq<Tick>, start: int, w: int, lib: Library): Mt5Bar
    requires g != []
  {
    var mids, residuals := Mids(g), Residuals(g);
    Mt5Bar(start, |g|, CountIf(g, IsJoinSafe), ShareOf(CountIf(g, IsJoinSafe), |g|),
           g[0].mid, g[|g| - 1].mid, LeastOf(mids), GreatestOf(mids), Mean(mids), Twap(g, start + w),
           SpreadOf(SpreadPrices(g), lib), SpreadOf(SpreadPoints(g), lib),
           lib.quantile(residuals, 0.5), lib.quantile(residuals, 0.95), GreatestOf(residuals), CountIf(g, IsOutlier))
  }

  function Mt5BarAt(ticks: seq<Tick>, w: int, b: int, lib: Library): Option<Mt5Bar> {
    var g := TickGroup(ticks, w, b);
    if g == [] then None else Some(Mt5BarOf(g, b, w, lib))
  }

  function Mt5Keys(ticks: seq<Tick>, w: int): set<int>
    requires w > 0
  {
    set t | t in ticks :: Bucket(TickNs(t), w)
  }

  lemma Mt5KeysExact(ticks: seq<Tick>, w: int, b: int)
    requires w > 0
    ensures b in Mt5Keys(ticks, w) <==> TickGroup(ticks, w, b) != []
    ensures b in Mt5Keys(ticks, w) ==> b % w == 0
  {
    TickGroupMembers(ticks, w, b);
    var g := TickGroup(ticks, w, b);
    if g != [] { assert g[0] in g; }
    if b in Mt5Keys(ticks, w) {
      var t :| t in ticks && Bucket(TickNs(t), w) == b;
      assert t in g;
      BucketBounds(TickNs(t), w);
    }
  }

  // ----- TWAP

  lemma {:induction false} WeightsTelescope(g: seq<Tick>, end: int)
    requires g != [] && SortedBy(g, TickLeq) && forall t :: t in g ==> TickNs(t) < end
    ensures |Weights(g, end)| == |g| && forall i :: 0 <= i < |g| ==> Weights(g, end)[i] >= 0
    ensures IntSum(Weights(g, end)) == end - TickNs(g[0])
  {
    assert g[0] in g;
    var rest := g[1..];
    if rest != [] {
      assert TickLeq(g[0], g[1]);
      WeightsTelescope(rest, end);
    }
    var weights := Weights(g, end);
    assert weights[1..] == Weights(rest, end);
  }

  lemma {:induction false} WeightedBounds(mids: seq<real>, weights: seq<int>, lo: real, hi: real)
    requires |mids| == |weights| && forall i :: 0 <= i < |weights| ==> weights[i] >= 0
    requires forall i :: 0 <= i < |mids| ==> lo <= mids[i] <= hi
    ensures ScaledBetween(lo, hi, Weighted(mids, weights), IntSum(weights))
  {
    if mids != [] {
      WeightedBounds(mids[1..], weights[1..], lo, hi);
      ScaledStep(lo, hi, mids[0], weights[0], Weighted(mids[1..], weights[1..]), IntSum(weights[1..]));
    }
  }

  /**
   * TWAP is a convex mean: the weights telescope to the time from the first quote to the bucket
   * end, which is positive, so the plain-mean fallback never applies and TWAP lies in the mid range.
   */
  lemma TwapWithinRange(ticks: seq<Tick>, w: int, b: int, lib: Library)
    requires w > 0 && Mt5BarAt(ticks, w, b, lib).Some?
    ensures var g, bar := TickGroup(ticks, w, b), Mt5BarAt(ticks, w, b, lib).value;
            && IntSum(Weights(g, b + w)) == b + w - TickNs(g[0]) && IntSum(Weights(g, b + w)) > 0
            && bar.midMin <= bar.midTwap <= bar.midMax
  {
    TicksEndInBucket(ticks, w, b);
    GroupsAreSorted([], ticks, w, b);
    GroupTwap(TickGroup(ticks, w, b), b + w);
    BarHoldsTwap(ticks, w, b, lib);
  }

  lemma BarHoldsTwap(ticks: seq<Tick>, w: int, b: int, lib: Library)
    requires Mt5BarAt(ticks, w, b, lib).Some?
    ensures var g, bar := TickGroup(ticks, w, b), Mt5BarAt(ticks, w, b, lib).value;
            && g != [] && bar.midTwap == Twap(g, b + w)
            && bar.midMin == LeastOf(Mids(g)) && bar.midMax == GreatestOf(Mids(g))
  {
  }

  lemma TicksEndInBucket(ticks: seq<Tick>, w: int, b: int)
    requires w > 0
    ensures forall t :: t in TickGroup(ticks, w, b) ==> TickNs(t) < b + w
  {
    TickGroupMembers(ticks, w, b);
    forall t | t in TickGroup(ticks, w, b) ensures TickNs(t) < b + w { BucketBounds(TickNs(t), w); }
  }

  lemma GroupTwap(g: seq<Tick>, end: int)
    requires g != [] && SortedBy(g, TickLeq) && forall t :: t in g ==> TickNs(t) < end
    ensures IntSum(Weights(g, end)) == end - TickNs(g[0]) && IntSum(Weights(g, end)) > 0
    ensures LeastOf(Mids(g)) <= Twap(g, end) <= GreatestOf(Mids(g))
  {
    WeightsTelescope(g, end);
    assert g[0] in g;
    WeightedWithinRange(Mids(g), Weights(g, end), Mean(Mids(g)));
  }

  lemma WeightedWithinRange(mids: seq<real>, weights: seq<int>, fallback: real)
    requires mids != [] && |mids| == |weights| && IntSum(weights) > 0
    requires forall i :: 0 <= i < |weights| ==> weights[i] >= 0
    ensures LeastOf(mids) <= WeightedMean(Weighted(mids, weights), IntSum(weights), fallback) <= GreatestOf(mids)
  {
    forall i | 0 <= i < |mids| ensures LeastOf(mids) <= mids[i] <= GreatestOf(mids) { ExtremesBound(mids, i); }
    WeightedBounds(mids, weights, LeastOf(mids), GreatestOf(mids));
    TwapBetween(Weighted(mids, weights), IntSum(weights), LeastOf(mids), GreatestOf(mids), fallback);
  }

  function WeightedMean(num: real, total: int, fallback: real): real {
    if total > 0 then num / total as real else fallback
  }

  lemma TwapBetween(num: real, total: int, lo: real, hi: real, fallback: real)
    requires total > 0 && ScaledBetween(lo, hi, num, total)
    ensures lo <= WeightedMean(num, total, fallback) <= hi
  {
    QuotientBetween(lo, hi, num, total as real);
  }

  // ----- what a bar's prices and counts are

  predicate TradeCounts(t: Trade, w: int, b: int) { t.valid && TradeIn(w, b)(t) }

  lemma EndsOfGroup(g: seq<Trade>, t: Trade)
    requires g != [] && SortedBy(g, TradeLeq) && t in g
    ensures g[0].timeNs <= t.timeNs <= g[|g| - 1].timeNs
  {
    var i :| 0 <= i < |g| && g[i] == t;
    assert i > 0 ==> TradeLeq(g[0], g[i]);
    assert i < |g| - 1 ==> TradeLeq(g[i], g[|g| - 1]);
  }

  /**
   * A trade bar opens with an earliest and closes with a latest valid trade of its bucket, and its
   * high and low are prices of the bucket's valid trades that no other exceeds or undercuts.
   */
  lemma CmeOpensAndCloses(trades: seq<Trade>, w: int, b: int) returns (open: Trade, close: Trade, top: Trade, bottom: Trade)
    requires w > 0 && CmeBarAt(trades, w, b).Some?
    ensures var bar := CmeBarAt(trades, w, b).value;
            bar.first == open.price && bar.last == close.price && bar.high == top.price && bar.low == bottom.price
    ensures open in trades && close in trades && top in trades && bottom in trades
    ensures TradeCounts(open, w, b) && TradeCounts(close, w, b) && TradeCounts(top, w, b) && TradeCounts(bottom, w, b)
    ensures forall t :: t in trades && TradeCounts(t, w, b) ==>
      open.timeNs <= t.timeNs <= close.timeNs && bottom.price <= t.price <= top.price
  {
    var g := TradeGroup(trades, w, b);
    TradeGroupMembers(trades, w, b);
    GroupsAreSorted(trades, [], w, b);
    var i, j := ExtremesAttained(Prices(g));
    open, close, top, bottom := g[0], g[|g| - 1], g[j], g[i];
    assert open in g && close in g && top in g && bottom in g;
    forall t | t in trades && TradeCounts(t, w, b)
      ensures open.timeNs <= t.timeNs <= close.timeNs && bottom.price <= t.price <= top.price
    {
      assert t in g;
      EndsOfGroup(g, t);
      var k :| 0 <= k < |g| && g[k] == t;
      ExtremesBound(Prices(g), k);
    }
  }

  lemma TickEndsOfGroup(g: seq<Tick>, t: Tick)
    requires g != [] && SortedBy(g, TickLeq) && t in g
    ensures g[0].timeMs <= t.timeMs <= g[|g| - 1].timeMs
  {
    var i :| 0 <= i < |g| && g[i] == t;
    assert i > 0 ==> TickLeq(g[0], g[i]);
    assert i < |g| - 1 ==> TickLeq(g[i], g[|g| - 1]);
  }

  /** A quote bar opens with an earliest and closes with a latest quote of its bucket. */
  lemma Mt5OpensAndCloses(ticks: seq<Tick>, w: int, b: int, lib: Library) returns (open: Tick, close: Tick)
    requires w > 0 && Mt5BarAt(ticks, w, b, lib).Some?
    ensures var bar := Mt5BarAt(ticks, w, b, lib).value;
            bar.midFirst == open.mid && bar.midLast == close.mid
    ensures open in ticks && close in ticks && TickIn(w, b)(open) && TickIn(w, b)(close)
    ensures forall t :: t in ticks && TickIn(w, b)(t) ==> open.timeMs <= t.timeMs <= close.timeMs
  {
    var g := TickGroup(ticks, w, b);
    TickGroupMembers(ticks, w, b);
    GroupsAreSorted([], ticks, w, b);
    open, close := g[0], g[|g| - 1];
    assert open in g && close in g;
    forall t | t in ticks && TickIn(w, b)(t) ensures open.timeMs <= t.timeMs <= close.timeMs {
      assert t in g;
      TickEndsOfGroup(g, t);
    }
  }

  lemma CountsIgnoreOrder(ticks: seq<Tick>, w: int, b: int, p: Tick -> bool)
    ensures |TickGroup(ticks, w, b)| == |Filter(ticks, TickIn(w, b))|
    ensures CountIf(TickGroup(ticks, w, b), p) == |Filter(Filter(ticks, TickIn(w, b)), p)|
  {
    var f := Filter(ticks, TickIn(w, b));
    FilterSort(ticks, TickLeq, TickIn(w, b));
    SortPermutes(f, TickLeq);
    FilterSort(f, TickLeq, p);
    SortPermutes(Filter(f, p), TickLeq);
  }

  /** The ratio is the share of join-safe quotes. */
  ghost predicate RatioIsShare(bar: Mt5Bar) {
    bar.joinSafeRatio * bar.tickCount as real == bar.joinSafeCount as real && 0.0 <= bar.joinSafeRatio <= 1.0
  }

  lemma BarCounts(g: seq<Tick>, bar: Mt5Bar)
    requires g != [] && bar.tickCount == |g| && bar.joinSafeCount == CountIf(g, IsJoinSafe)
    requires bar.joinSafeRatio == ShareOf(CountIf(g, IsJoinSafe), |g|)
    ensures RatioIsShare(bar)
  {
    FilterMembers(g, IsJoinSafe);
    ShareBounds(CountIf(g, IsJoinSafe), |g|);
  }

  /** A quote bar counts the bucket's quotes, the join-safe ones and the latency outliers; the ratio is their share. */
  lemma Mt5Counts(ticks: seq<Tick>, w: int, b: int, lib: Library) returns (bar: Mt5Bar)
    requires Mt5BarAt(ticks, w, b, lib).Some?
    ensures Mt5BarAt(ticks, w, b, lib) == Some(bar) && RatioIsShare(bar)
    ensures var f := Filter(ticks, TickIn(w, b));
            bar.tickCount == |f| && bar.joinSafeCount == |Filter(f, IsJoinSafe)| && bar.latencyOutliers == |Filter(f, IsOutlier)|
  {
    CountsIgnoreOrder(ticks, w, b, IsJoinSafe);
    CountsIgnoreOrder(ticks, w, b, IsOutlier);
    bar := Mt5BarAt(ticks, w, b, lib).value;
    BarCounts(TickGroup(ticks, w, b), bar);
  }

  lemma ShareBounds(part: nat, whole: nat)
    requires part <= whole && whole > 0
    ensures ShareOf(part, whole) * whole as real == part as real
    ensures 0.0 <= ShareOf(part, whole) <= 1.0
  {
    DivideBack(part as real, whole as real);
    QuotientBetween(0.0, 1.0, part as real, whole as real);
  }
}
