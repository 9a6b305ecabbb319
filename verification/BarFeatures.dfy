/** The feature table of one symbol pair and one bucket size: full join, overlap clip, quality, features. */
module BarFeatures {
  import opened Sequences
  import opened Percentiles
  import opened Moments
  import opened BarAggregation

  const DIAGNOSTIC_BUCKET_SIZE: string := "5s"
  const BPS: real := 10000.0
  const NS_PER_SECOND: real := 1000000000.0

  datatype Log = Log(cme: seq<Trade>, mt5: seq<Tick>)

  datatype Config = Config(minJoinSafeRatio: real, maxSpread: Option<real>)

  datatype BucketSize = BucketSize(name: string, ns: int)

  datatype Span = Span(lo: int, hi: int)

  // ----- the overlap of the two sources

  function TradeTimes(trades: seq<Trade>): (r: seq<int>)
    ensures |r| == |trades| && forall i :: 0 <= i < |r| ==> r[i] == trades[i].timeNs
  {
    seq(|trades|, i requires 0 <= i < |trades| => trades[i].timeNs)
  }

  function TickTimes(ticks: seq<Tick>): (r: seq<int>)
    ensures |r| == |ticks| && forall i :: 0 <= i < |r| ==> r[i] == TickNs(ticks[i])
  {
    seq(|ticks|, i requires 0 <= i < |ticks| => TickNs(ticks[i]))
  }

  function Earliest(s: seq<int>): (m: int)
    requires s != []
    ensures m in s && forall x :: x in s ==> m <= x
  {
    if |s| == 1 then s[0]
    else
      var rest := Earliest(s[1..]);
      assert forall x :: x in s ==> x == s[0] || x in s[1..];
      if s[0] <= rest then s[0] else rest
  }

  function Latest(s: seq<int>): (m: int)
    requires s != []
    ensures m in s && forall x :: x in s ==> x <= m
  {
    if |s| == 1 then s[0]
    else
      var rest := Latest(s[1..]);
      assert forall x :: x in s ==> x == s[0] || x in s[1..];
      if s[0] >= rest then s[0] else rest
  }

  function Larger(a: int, b: int): int { if a >= b then a else b }
  function Smaller(a: int, b: int): int { if a <= b then a else b }

  predicate Populated(log: Log) { log.cme != [] && log.mt5 != [] }

  /** When both sources have begun: the later of the two first events. */
  function Opening(log: Log): int
    requires Populated(log)
  {
    Larger(Earliest(TradeTimes(log.cme)), Earliest(TickTimes(log.mt5)))
  }

  /** When the first source ends: the earlier of the two last events. */
  function Closing(log: Log): int
    requires Populated(log)
  {
    Smaller(Latest(TradeTimes(log.cme)), Latest(TickTimes(log.mt5)))
  }

  /** The clip: absent when a source is empty, when a quote bound is zero, or when the spans do not meet. */
  function Overlap(log: Log): Option<Span> {
    if !Populated(log) then None
    else if Earliest(TickTimes(log.mt5)) == 0 || Latest(TickTimes(log.mt5)) == 0 then None
    else if Opening(log) <= Closing(log) then Some(Span(Opening(log), Closing(log)))
    else None
  }

  predicate Kept(overlap: Option<Span>, w: int, b: int) {
    overlap.None? || (b + w > overlap.value.lo && b <= overlap.value.hi)
  }

  // ----- the joined frame

  datatype BaseRow = BaseRow(start: int, cme: Option<CmeBar>, stats: Option<SizeStats>, mt5: Option<Mt5Bar>)

  function StatsAt(trades: seq<Trade>, w: int, b: int, lib: Library): Option<SizeStats> {
    var g := ArrivalGroup(trades, w, b);
    if g == [] then None else Some(SizeStatsOf(g, lib))
  }

  function BaseRowAt(log: Log, w: int, b: int, lib: Library): BaseRow {
    BaseRow(b, CmeBarAt(log.cme, w, b), StatsAt(log.cme, w, b, lib), Mt5BarAt(log.mt5, w, b, lib))
  }

  /** The bucket starts of the full outer join, before the clip. */
  function JoinKeys(log: Log, w: int): set<int>
    requires w > 0
  {
    CmeKeys(log.cme, w) + Mt5Keys(log.mt5, w)
  }

  function FrameKeys(log: Log, w: int): set<int>
    requires w > 0
  {
    set b | b in JoinKeys(log, w) && Kept(Overlap(log), w, b)
  }

  function RowsAt(log: Log, w: int, keys: seq<int>, lib: Library): (r: seq<BaseRow>)
    ensures |r| == |keys| && forall i :: 0 <= i < |r| ==> r[i] == BaseRowAt(log, w, keys[i], lib)
  {
    seq(|keys|, i requires 0 <= i < |keys| => BaseRowAt(log, w, keys[i], lib))
  }

  /** The clipped join, sorted by bucket start. */
  function Frame(log: Log, w: int, lib: Library): seq<BaseRow>
    requires w > 0
  {
    RowsAt(log, w, AscendingOf(FrameKeys(log, w)), lib)
  }

  // ----- row quality

  function CmeClose(r: BaseRow): Option<real> { if r.cme.Some? then Some(r.cme.value.last) else None }
  function CmeVwap(r: BaseRow): Option<real> { if r.cme.Some? then r.cme.value.vwap else None }
  function MidClose(r: BaseRow): Option<real> { if r.mt5.Some? then Some(r.mt5.value.midLast) else None }

  predicate ZeroVolume(r: BaseRow) { r.cme.None? || r.cme.value.totalVolume <= 0 }
  predicate ZeroTicks(r: BaseRow) { r.mt5.None? || r.mt5.value.tickCount <= 0 }

  predicate LowJoinSafe(r: BaseRow, c: Config) {
    (if r.mt5.Some? then r.mt5.value.joinSafeRatio else 0.0) < c.minJoinSafeRatio
  }

  predicate InvalidPrice(r: BaseRow) {
    CmeClose(r).None? || MidClose(r).None? || CmeClose(r).value <= 0.0
  }

  predicate SpreadExtreme(r: BaseRow, c: Config) {
    match c.maxSpread
    case None => false
    case Some(limit) => (if r.mt5.Some? then r.mt5.value.spreadPrice.greatest else limit + 1.0) > limit
  }

  datatype Reject = NoCmeData | NoMt5Data | ZeroCmeVolume | ZeroMt5Ticks | LowRatio | BadPrice | SpreadTooWide

  /** The reject reason; no reason means the bar counts as aligned. */
  function RejectReason(r: BaseRow, c: Config): Option<Reject> {
    if r.cme.None? then Some(NoCmeData)
    else if r.mt5.None? then Some(NoMt5Data)
    else if ZeroVolume(r) then Some(ZeroCmeVolume)
    else if ZeroTicks(r) then Some(ZeroMt5Ticks)
    else if LowJoinSafe(r, c) then Some(LowRatio)
    else if InvalidPrice(r) then Some(BadPrice)
    else if SpreadExtreme(r, c) then Some(SpreadTooWide)
    else None
  }

  datatype Quality =
    MissingCme | MissingMt5 | ZeroVolumeBar | InvalidPriceBar | LowJoinSafeRatio | SpreadExtremeBar | DiagnosticOnly | Usable

  /** The quality flag: a second chain, with the price and ratio tests in the other order and no tick test. */
  function QualityFlag(r: BaseRow, c: Config, name: string): Quality {
    if r.cme.None? then MissingCme
    else if r.mt5.None? then MissingMt5
    else if ZeroVolume(r) then ZeroVolumeBar
    else if InvalidPrice(r) then InvalidPriceBar
    else if LowJoinSafe(r, c) then LowJoinSafeRatio
    else if SpreadExtreme(r, c) then SpreadExtremeBar
    else if name == DIAGNOSTIC_BUCKET_SIZE then DiagnosticOnly
    else Usable
  }

  predicate Eligible(r: BaseRow, c: Config, name: string) {
    QualityFlag(r, c, name).Usable? && name != DIAGNOSTIC_BUCKET_SIZE
  }

  /** What a bar's presence tells about its contents, given valid trades. */
  predicate HoldsEvents(r: BaseRow) {
    && (r.mt5.Some? ==> r.mt5.value.tickCount > 0)
    && (r.cme.Some? ==>
          && r.cme.value.totalVolume > 0 && r.cme.value.last > 0.0
          && r.cme.value.vwap.Some? && r.cme.value.vwap.value > 0.0)
  }

  lemma CmeBarHoldsTrades(log: Log, w: int, b: int)
    requires w > 0 && ValidMeansPositive(log.cme) && CmeBarAt(log.cme, w, b).Some?
    ensures var bar := CmeBarAt(log.cme, w, b).value;
            bar.totalVolume > 0 && bar.last > 0.0 && bar.vwap.Some? && bar.vwap.value > 0.0
  {
    var g := TradeGroup(log.cme, w, b);
    VwapWithinRange(log.cme, w, b);
    TradeGroupMembers(log.cme, w, b);
    assert g[|g| - 1] in g;
    var i, _ := ExtremesAttained(Prices(g));
    assert g[i] in g;
  }

  lemma BarsHoldEvents(log: Log, w: int, b: int, lib: Library)
    requires w > 0 && ValidMeansPositive(log.cme)
    ensures HoldsEvents(BaseRowAt(log, w, b, lib))
    ensures BaseRowAt(log, w, b, lib).cme.Some? <==> b in CmeKeys(log.cme, w)
    ensures BaseRowAt(log, w, b, lib).mt5.Some? <==> b in Mt5Keys(log.mt5, w)
  {
    CmeKeysExact(log.cme, w, b);
    Mt5KeysExact(log.mt5, w, b);
    if CmeBarAt(log.cme, w, b).Some? { CmeBarHoldsTrades(log, w, b); }
  }

  /** The flag that goes with a reject reason, whatever the order of the tests. */
  function FlagFor(reason: Option<Reject>, name: string): Quality {
    match reason
    case None => if name == DIAGNOSTIC_BUCKET_SIZE then DiagnosticOnly else Usable
    case Some(NoCmeData) => MissingCme
    case Some(NoMt5Data) => MissingMt5
    case Some(ZeroCmeVolume) => ZeroVolumeBar
    case Some(ZeroMt5Ticks) => MissingMt5
    case Some(LowRatio) => LowJoinSafeRatio
    case Some(BadPrice) => InvalidPriceBar
    case Some(SpreadTooWide) => SpreadExtremeBar
  }

  lemma ChainsAgreeOn(r: BaseRow, c: Config, name: string)
    requires HoldsEvents(r)
    ensures QualityFlag(r, c, name) == FlagFor(RejectReason(r, c), name)
    ensures RejectReason(r, c).Some? ==> RejectReason(r, c).value !in {ZeroCmeVolume, ZeroMt5Ticks, BadPrice}
  {
  }

  /**
   * In a built frame the two chains, which test price and ratio in different orders, correspond
   * reason by reason, and zero volume, zero ticks and bad prices never occur.
   */
  lemma ChainsAgree(log: Log, w: int, b: int, lib: Library, c: Config, name: string)
    requires w > 0 && ValidMeansPositive(log.cme)
    ensures var r := BaseRowAt(log, w, b, lib);
            && QualityFlag(r, c, name) == FlagFor(RejectReason(r, c), name)
            && (RejectReason(r, c).Some? ==> RejectReason(r, c).value !in {ZeroCmeVolume, ZeroMt5Ticks, BadPrice})
  {
    BarsHoldEvents(log, w, b, lib);
    ChainsAgreeOn(BaseRowAt(log, w, b, lib), c, name);
  }

  predicate PassesThresholds(r: BaseRow, c: Config) {
    && r.mt5.Some?
    && r.mt5.value.joinSafeRatio >= c.minJoinSafeRatio
    && (c.maxSpread.Some? ==> r.mt5.value.spreadPrice.greatest <= c.maxSpread.value)
  }

  lemma EligibleRow(r: BaseRow, c: Config, name: string)
    requires HoldsEvents(r)
    ensures Eligible(r, c, name) <==> name != DIAGNOSTIC_BUCKET_SIZE && r.cme.Some? && PassesThresholds(r, c)
  {
  }

  /**
   * On valid trades an eligible row is exactly a co-present bucket of a non-diagnostic size whose
   * join-safe share and widest spread pass the two thresholds.
   */
  lemma EligibleExactly(log: Log, w: int, b: int, lib: Library, c: Config, name: string)
    requires w > 0 && ValidMeansPositive(log.cme)
    ensures Eligible(BaseRowAt(log, w, b, lib), c, name) <==>
            && name != DIAGNOSTIC_BUCKET_SIZE
            && b in CmeKeys(log.cme, w) && b in Mt5Keys(log.mt5, w)
            && PassesThresholds(BaseRowAt(log, w, b, lib), c)
  {
    BarsHoldEvents(log, w, b, lib);
    EligibleRow(BaseRowAt(log, w, b, lib), c, name);
  }

  // ----- features

  /** A feature cell: missing, a float division by zero, or a number. */
  datatype Cell = Null | NonFinite | Number(value: real)

  function Divide(a: Option<real>, b: Option<real>): Cell {
    if a.None? || b.None? then Null
    else if b.value == 0.0 then NonFinite
    else Number(a.value / b.value)
  }

  function Minus(a: Option<real>, b: Option<real>): Option<real> {
    if a.None? || b.None? then None else Some(a.value - b.value)
  }

  function CellMinus(a: Cell, b: Cell): Cell {
    if a.Null? || b.Null? then Null
    else if a.NonFinite? || b.NonFinite? then NonFinite
    else Number(a.value - b.value)
  }

  function GuardedBps(num: real, base: real): Option<real> {
    if base > 0.0 then Some(num / base * BPS) else None
  }

  function Share(part: int, total: int): Option<real> {
    if total > 0 then Some(part as real / total as real) else None
  }

  function RangeBps(r: BaseRow): Option<real> {
    if r.cme.None? then None else GuardedBps(r.cme.value.high - r.cme.value.low, r.cme.value.low)
  }

  function MidRangeBps(r: BaseRow): Option<real> {
    if r.mt5.None? then None else GuardedBps(r.mt5.value.midMax - r.mt5.value.midMin, r.mt5.value.midMin)
  }

  function BasisBps(r: BaseRow): Option<real> {
    if CmeClose(r).None? || MidClose(r).None? then None
    else GuardedBps(MidClose(r).value - CmeClose(r).value, CmeClose(r).value)
  }

  function Volume(r: BaseRow): Option<real> { if r.cme.Some? then Some(r.cme.value.totalVolume as real) else None }
  function TradeCount(r: BaseRow): Option<real> { if r.cme.Some? then Some(r.cme.value.count as real) else None }
  function TickCount(r: BaseRow): Option<real> { if r.mt5.Some? then Some(r.mt5.value.tickCount as real) else None }
  function SpreadP95(r: BaseRow): Option<real> { if r.mt5.Some? then Some(r.mt5.value.spreadPrice.p95) else None }

  /** The value one row earlier; the first row has none. */
  function Lag(frame: seq<BaseRow>, i: nat, f: BaseRow -> Option<real>): Option<real>
    requires i < |frame|
  {
    if i == 0 then None else f(frame[i - 1])
  }

  function Return(frame: seq<BaseRow>, i: nat, f: BaseRow -> Option<real>): Cell
    requires i < |frame|
  {
    Divide(Minus(f(frame[i]), Lag(frame, i, f)), Lag(frame, i, f))
  }

  function Column(rows: seq<BaseRow>, f: BaseRow -> Option<real>): (r: seq<Option<real>>)
    ensures |r| == |rows|
  {
    seq(|rows|, i requires 0 <= i < |rows| => f(rows[i]))
  }

  /** The trailing window that ends with row i: at most 20 rows. */
  function Trailing(frame: seq<BaseRow>, i: nat, f: BaseRow -> Option<real>): (r: seq<Option<real>>)
    requires i < |frame|
    ensures 0 < |r| <= ZSCORE_WINDOW
  {
    Column(frame[(if i + 1 < ZSCORE_WINDOW then 0 else i + 1 - ZSCORE_WINDOW)..i + 1], f)
  }

  function Score(frame: seq<BaseRow>, i: nat, f: BaseRow -> Option<real>, lib: Library): Option<real>
    requires i < |frame|
  {
    ZScore(Trailing(frame, i, f), lib.root)
  }

  datatype CmeFeatures = CmeFeatures(
    returnClose: Cell, vwapReturn: Cell, rangeBps: Option<real>, tradeCount: Option<real>, totalVolume: Option<real>,
    buyRatio: Option<real>, sellRatio: Option<real>, unknownRatio: Option<real>, signedRatio: Option<real>,
    volumePerTrade: Option<real>, intensity: Option<real>, stats: Option<SizeStats>)

  datatype Mt5Features = Mt5Features(
    midReturn: Cell, midRangeBps: Option<real>, spreadPrice: Option<Spread>, spreadPoints: Option<Spread>,
    joinSafeRatio: Option<real>, tickCount: Option<real>,
    residualP50: Option<real>, residualP95: Option<real>, residualMax: Option<real>)

  datatype CrossFeatures = CrossFeatures(basisBps: Option<real>, basisChangeBps: Option<real>, returnDiff: Cell)

  datatype Scores = Scores(
    volume: Option<real>, tradeCount: Option<real>, range: Option<real>, spread: Option<real>, tickCount: Option<real>)

  datatype FeatureRow = FeatureRow(
    start: int, end: int, eligible: bool, cme: CmeFeatures, mt5: Mt5Features, cross: CrossFeatures, scores: Scores)

  function CmeFeaturesAt(frame: seq<BaseRow>, i: nat, w: int): CmeFeatures
    requires i < |frame|
  {
    var r := frame[i];
    var ret, vwapRet := Return(frame, i, CmeClose), Return(frame, i, CmeVwap);
    match r.cme
    case None => CmeFeatures(ret, vwapRet, None, None, None, None, None, None, None, None, None, r.stats)
    case Some(bar) =>
      CmeFeatures(ret, vwapRet, RangeBps(r), TradeCount(r), Volume(r),
                  Share(bar.buyVolume, bar.totalVolume), Share(bar.sellVolume, bar.totalVolume),
                  Share(bar.unknownVolume, bar.totalVolume), bar.signedVolumeRatio,
                  Share(bar.totalVolume, bar.count),
                  if w > 0 then Some(bar.count as real / (w as real / NS_PER_SECOND)) else None, r.stats)
  }

  function Mt5FeaturesAt(frame: seq<BaseRow>, i: nat): Mt5Features
    requires i < |frame|
  {
    var r := frame[i];
    var ret := Return(frame, i, MidClose);
    match r.mt5
    case None => Mt5Features(ret, None, None, None, None, None, None, None, None)
    case Some(bar) =>
      Mt5Features(ret, MidRangeBps(r), Some(bar.spreadPrice), Some(bar.spreadPoints), Some(bar.joinSafeRatio),
                  TickCount(r), Some(bar.residualP50), Some(bar.residualP95), Some(bar.residualMax))
  }

  function CrossFeaturesAt(frame: seq<BaseRow>, i: nat): CrossFeatures
    requires i < |frame|
  {
    CrossFeatures(BasisBps(frame[i]), Minus(BasisBps(frame[i]), Lag(frame, i, BasisBps)),
                  CellMinus(Return(frame, i, MidClose), Return(frame, i, CmeClose)))
  }

  function ScoresAt(frame: seq<BaseRow>, i: nat, lib: Library): Scores
    requires i < |frame|
  {
    Scores(Score(frame, i, Volume, lib), Score(frame, i, TradeCount, lib), Score(frame, i, RangeBps, lib),
           Score(frame, i, SpreadP95, lib), Score(frame, i, TickCount, lib))
  }

  function FeatureRowAt(frame: seq<BaseRow>, i: nat, bucket: BucketSize, c: Config, lib: Library): FeatureRow
    requires i < |frame|
  {
    FeatureRow(frame[i].start, frame[i].start + bucket.ns, Eligible(frame[i], c, bucket.name),
               CmeFeaturesAt(frame, i, bucket.ns), Mt5FeaturesAt(frame, i), CrossFeaturesAt(frame, i), ScoresAt(frame, i, lib))
  }

  /** The whole feature table of one pair and bucket size. */
  function Table(log: Log, bucket: BucketSize, c: Config, lib: Library): (r: seq<FeatureRow>)
    requires bucket.ns > 0
    ensures |r| == |Frame(log, bucket.ns, lib)|
  {
    var frame := Frame(log, bucket.ns, lib);
    seq(|frame|, i requires 0 <= i < |frame| => FeatureRowAt(frame, i, bucket, c, lib))
  }

  // ----- causality of one row

  lemma ScoreIsCausal(a: seq<BaseRow>, b: seq<BaseRow>, i: nat, f: BaseRow -> Option<real>, lib: Library)
    requires i < |a| && i < |b| && a[..i + 1] == b[..i + 1]
    ensures Score(a, i, f, lib) == Score(b, i, f, lib)
    ensures Return(a, i, f) == Return(b, i, f) && Lag(a, i, f) == Lag(b, i, f)
  {
    var from := if i + 1 < ZSCORE_WINDOW then 0 else i + 1 - ZSCORE_WINDOW;
    assert a[from..i + 1] == a[..i + 1][from..] && b[from..i + 1] == b[..i + 1][from..];
    assert a[i] == a[..i + 1][i] && b[i] == b[..i + 1][i];
    assert i > 0 ==> a[i - 1] == a[..i + 1][i - 1] && b[i - 1] == b[..i + 1][i - 1];
  }

  lemma ValuesAreCausal(a: seq<BaseRow>, b: seq<BaseRow>, i: nat, w: int, lib: Library)
    requires i < |a| && i < |b| && a[..i + 1] == b[..i + 1]
    ensures CmeFeaturesAt(a, i, w) == CmeFeaturesAt(b, i, w) && Mt5FeaturesAt(a, i) == Mt5FeaturesAt(b, i)
    ensures CrossFeaturesAt(a, i) == CrossFeaturesAt(b, i)
  {
    ScoreIsCausal(a, b, i, CmeClose, lib);
    ScoreIsCausal(a, b, i, CmeVwap, lib);
    ScoreIsCausal(a, b, i, MidClose, lib);
    ScoreIsCausal(a, b, i, BasisBps, lib);
    assert a[i] == a[..i + 1][i] && b[i] == b[..i + 1][i];
  }

  lemma ScoresAreCausal(a: seq<BaseRow>, b: seq<BaseRow>, i: nat, lib: Library)
    requires i < |a| && i < |b| && a[..i + 1] == b[..i + 1]
    ensures ScoresAt(a, i, lib) == ScoresAt(b, i, lib)
  {
    ScoreIsCausal(a, b, i, Volume, lib);
    ScoreIsCausal(a, b, i, TradeCount, lib);
    ScoreIsCausal(a, b, i, RangeBps, lib);
    ScoreIsCausal(a, b, i, SpreadP95, lib);
    ScoreIsCausal(a, b, i, TickCount, lib);
  }

  /** A feature row depends on nothing after its own row. */
  lemma FeaturesAreCausal(a: seq<BaseRow>, b: seq<BaseRow>, i: nat, bucket: BucketSize, c: Config, lib: Library)
    requires i < |a| && i < |b| && a[..i + 1] == b[..i + 1]
    ensures FeatureRowAt(a, i, bucket, c, lib) == FeatureRowAt(b, i, bucket, c, lib)
  {
    ValuesAreCausal(a, b, i, bucket.ns, lib);
    ScoresAreCausal(a, b, i, lib);
    assert a[i] == a[..i + 1][i] && b[i] == b[..i + 1][i];
  }

  // ----- the z-score columns

  ghost predicate RootsExact(lib: Library) {
    forall v: real :: v >= 0.0 ==> IsRoot(lib.root, v)
  }

  predicate WithinBound(z: Option<real>) { z.Some? ==> z.value * z.value <= 18.05 }

  lemma {:induction false} SquaresNonNegative(d: seq<real>)
    ensures RealSum(d, Square) >= 0.0
  {
    if d != [] { SquaresNonNegative(d[1..]); }
  }

  lemma ScoreWithinBound(frame: seq<BaseRow>, i: nat, f: BaseRow -> Option<real>, lib: Library)
    requires i < |frame| && RootsExact(lib)
    ensures WithinBound(Score(frame, i, f, lib))
  {
    var window := Trailing(frame, i, f);
    var values := Present(window);
    if |values| >= 2 {
      SquaresNonNegative(Deviations(values, Mean(values)));
      assert Variance(values) >= 0.0;
    }
    if Score(frame, i, f, lib).Some? { WindowZScoreBounded(window, lib.root); }
  }

  /** Every non-null z-score feature of every row satisfies z^2 <= 18.05. */
  lemma FeatureScoresBounded(frame: seq<BaseRow>, i: nat, lib: Library)
    requires i < |frame| && RootsExact(lib)
    ensures var z := ScoresAt(frame, i, lib);
            WithinBound(z.volume) && WithinBound(z.tradeCount) && WithinBound(z.range) && WithinBound(z.spread) && WithinBound(z.tickCount)
  {
    ScoreWithinBound(frame, i, Volume, lib);
    ScoreWithinBound(frame, i, TradeCount, lib);
    ScoreWithinBound(frame, i, RangeBps, lib);
    ScoreWithinBound(frame, i, SpreadP95, lib);
    ScoreWithinBound(frame, i, TickCount, lib);
  }
}
