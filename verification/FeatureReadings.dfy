/**
 * The feature table read from its bars and from the raw events: which rows a table has, which of them are
 * eligible, and what each column says.
 */
module FeatureReadings {
  import opened Sequences
  import opened Arithmetic
  import opened Moments
  import opened BarAggregation
  import opened BarFeatures
  import opened BarReadings

  // ----- which buckets the table has

  /** Both sources have begun and neither has ended at this time. */
  ghost predicate Covered(log: Log, t: int) {
    && (exists a :: a in log.cme && a.timeNs <= t) && (exists a :: a in log.cme && t <= a.timeNs)
    && (exists q :: q in log.mt5 && q.timeMs * 1_000_000 <= t) && (exists q :: q in log.mt5 && t <= q.timeMs * 1_000_000)
  }

  lemma TradeSpan(log: Log, t: int)
    requires log.cme != []
    ensures (exists a :: a in log.cme && a.timeNs <= t) <==> Earliest(TradeTimes(log.cme)) <= t
    ensures (exists a :: a in log.cme && t <= a.timeNs) <==> t <= Latest(TradeTimes(log.cme))
  {
    var times := TradeTimes(log.cme);
    forall a | a in log.cme ensures Earliest(times) <= a.timeNs <= Latest(times) {
      var i :| 0 <= i < |log.cme| && log.cme[i] == a;
      assert times[i] in times;
    }
    var i :| 0 <= i < |times| && times[i] == Earliest(times);
    var j :| 0 <= j < |times| && times[j] == Latest(times);
    assert log.cme[i] in log.cme && log.cme[j] in log.cme;
  }

  lemma QuoteSpan(log: Log, t: int)
    requires log.mt5 != []
    ensures (exists q :: q in log.mt5 && q.timeMs * 1_000_000 <= t) <==> Earliest(TickTimes(log.mt5)) <= t
    ensures (exists q :: q in log.mt5 && t <= q.timeMs * 1_000_000) <==> t <= Latest(TickTimes(log.mt5))
    ensures (exists q :: q in log.mt5 && Earliest(TickTimes(log.mt5)) == q.timeMs * 1_000_000)
    ensures (exists q :: q in log.mt5 && Latest(TickTimes(log.mt5)) == q.timeMs * 1_000_000)
  {
    var times := TickTimes(log.mt5);
    forall q | q in log.mt5 ensures Earliest(times) <= q.timeMs * 1_000_000 <= Latest(times) {
      var i :| 0 <= i < |log.mt5| && log.mt5[i] == q;
      assert times[i] in times;
    }
    var i :| 0 <= i < |times| && times[i] == Earliest(times);
    var j :| 0 <= j < |times| && times[j] == Latest(times);
    assert log.mt5[i] in log.mt5 && log.mt5[j] in log.mt5;
  }

  /** The overlap that clips the join is the span of the instants at which both sources are running. */
  lemma OverlapIsCovered(log: Log, t: int)
    requires forall q :: q in log.mt5 ==> q.timeMs > 0
    ensures Covered(log, t) <==> Overlap(log).Some? && Overlap(log).value.lo <= t <= Overlap(log).value.hi
    ensures Overlap(log).Some? ==> Overlap(log).value.lo <= Overlap(log).value.hi
  {
    if Populated(log) {
      TradeSpan(log, t);
      QuoteSpan(log, t);
    }
  }

  lemma KeptMeansShared(log: Log, w: int, k: int)
    requires w > 0 && forall q :: q in log.mt5 ==> q.timeMs > 0
    ensures Kept(Overlap(log), w, k) <==> (forall t :: !Covered(log, t)) || exists t :: k <= t < k + w && Covered(log, t)
  {
    forall t ensures Covered(log, t) <==> Overlap(log).Some? && Overlap(log).value.lo <= t <= Overlap(log).value.hi {
      OverlapIsCovered(log, t);
    }
    OverlapIsCovered(log, 0);
    if Overlap(log).Some? {
      var lo, hi := Overlap(log).value.lo, Overlap(log).value.hi;
      assert Covered(log, lo);
      if k + w > lo && k <= hi {
        var t := if k >= lo then k else lo;
        assert Covered(log, t);
      }
    }
  }

  /**
   * The table has a row for exactly the aligned buckets in which a valid trade or a quote occurs and,
   * when the two sources overlap in time at all, some instant at which both are running.
   */
  lemma RowsAreSharedBuckets(log: Log, w: int, k: int)
    requires w > 0 && forall q :: q in log.mt5 ==> q.timeMs > 0
    ensures k in FrameKeys(log, w) <==>
      && k % w == 0
      && (Filter(log.cme, Within(w, k)) != [] || Filter(log.mt5, QuoteWithin(w, k)) != [])
      && ((forall t :: !Covered(log, t)) || exists t :: k <= t < k + w && Covered(log, t))
  {
    KeptMeansShared(log, w, k);
    CmeKeysExact(log.cme, w, k);
    Mt5KeysExact(log.mt5, w, k);
    if k % w == 0 { KeysAreEvents(log, w, k); }
  }

  // ----- which rows are eligible

  /** Enough of these quotes are join-safe, and none has too wide a spread. */
  ghost predicate QuotesPass(quotes: seq<Tick>, c: Config) {
    && |Filter(quotes, IsSafe())| as real >= c.minJoinSafeRatio * |quotes| as real
    && (c.maxSpread.Some? ==> forall t :: t in quotes ==> t.spreadPrice <= c.maxSpread.value)
  }

  lemma ShareAtLeast(share: real, part: real, whole: real, limit: real)
    requires whole > 0.0 && share * whole == part
    ensures share >= limit <==> part >= limit * whole
  {
    if share >= limit {
      ProductMonotone(limit, share, whole);
    }
    if part >= limit * whole { CancelPositive(limit, share, whole); }
  }

  lemma ThresholdsMean(quotes: seq<Tick>, bar: Mt5Bar, r: BaseRow, c: Config)
    requires r.mt5 == Some(bar) && IsShare(bar.joinSafeRatio, |Filter(quotes, IsSafe())|, |quotes|)
    requires IsGreatestOf(quotes, SpreadPriceOf(), bar.spreadPrice.greatest)
    ensures PassesThresholds(r, c) <==> QuotesPass(quotes, c)
  {
    ShareAtLeast(bar.joinSafeRatio, |Filter(quotes, IsSafe())| as real, |quotes| as real, c.minJoinSafeRatio);
    assert forall t :: t in quotes ==> SpreadPriceOf()(t) == t.spreadPrice;
  }

  lemma RowPasses(log: Log, w: int, k: int, lib: Library, c: Config)
    requires w > 0 && k % w == 0
    ensures var quotes := Filter(log.mt5, QuoteWithin(w, k));
            PassesThresholds(BaseRowAt(log, w, k, lib), c) <==> quotes != [] && QuotesPass(quotes, c)
  {
    QuotesAreBucket(log.mt5, w, k);
    if Mt5BarAt(log.mt5, w, k, lib).Some? {
      QuoteCountsMean(log.mt5, w, k, lib);
      QuoteSpreadsMean(log.mt5, w, k, lib);
      ThresholdsMean(Filter(log.mt5, QuoteWithin(w, k)), Mt5BarAt(log.mt5, w, k, lib).value, BaseRowAt(log, w, k, lib), c);
    }
  }

  /**
   * On valid trades a bucket's row is eligible exactly when its size is not the diagnostic one, it holds a
   * valid trade and a quote, enough of its quotes are join-safe, and none of their spreads is too wide.
   */
  lemma EligibleFromEvents(log: Log, w: int, k: int, lib: Library, c: Config, name: string)
    requires w > 0 && k % w == 0 && ValidMeansPositive(log.cme)
    ensures var quotes := Filter(log.mt5, QuoteWithin(w, k));
            Eligible(BaseRowAt(log, w, k, lib), c, name) <==>
              name != "5s" && Filter(log.cme, Within(w, k)) != [] && quotes != [] && QuotesPass(quotes, c)
  {
    EligibleExactly(log, w, k, lib, c, name);
    KeysAreEvents(log, w, k);
    RowPasses(log, w, k, lib, c);
  }

  /** Enough of these quotes are join-safe. */
  ghost predicate MostlySafe(quotes: seq<Tick>, c: Config) {
    |Filter(quotes, IsSafe())| as real >= c.minJoinSafeRatio * |quotes| as real
  }

  lemma RatioFromEvents(log: Log, w: int, k: int, lib: Library, c: Config)
    requires w > 0 && k % w == 0 && Filter(log.mt5, QuoteWithin(w, k)) != []
    ensures BaseRowAt(log, w, k, lib).mt5.Some?
    ensures LowJoinSafe(BaseRowAt(log, w, k, lib), c) <==> !MostlySafe(Filter(log.mt5, QuoteWithin(w, k)), c)
  {
    var quotes := Filter(log.mt5, QuoteWithin(w, k));
    QuotesAreBucket(log.mt5, w, k);
    QuoteCountsMean(log.mt5, w, k, lib);
    RatioMeans(quotes, Mt5BarAt(log.mt5, w, k, lib).value, BaseRowAt(log, w, k, lib), c);
  }

  lemma RatioMeans(quotes: seq<Tick>, bar: Mt5Bar, r: BaseRow, c: Config)
    requires r.mt5 == Some(bar) && IsShare(bar.joinSafeRatio, |Filter(quotes, IsSafe())|, |quotes|)
    ensures LowJoinSafe(r, c) <==> !MostlySafe(quotes, c)
  {
    ShareAtLeast(bar.joinSafeRatio, |Filter(quotes, IsSafe())| as real, |quotes| as real, c.minJoinSafeRatio);
  }

  /**
   * On valid trades the reject reason of a bucket's row is the first that applies: no valid trade, no
   * quote, too few join-safe quotes, too wide a spread; a row with none of these has no reason.
   */
  lemma ReasonFromEvents(log: Log, w: int, k: int, lib: Library, c: Config)
    requires w > 0 && k % w == 0 && ValidMeansPositive(log.cme)
    ensures var quotes := Filter(log.mt5, QuoteWithin(w, k));
            RejectReason(BaseRowAt(log, w, k, lib), c) ==
              if Filter(log.cme, Within(w, k)) == [] then Some(NoCmeData)
              else if quotes == [] then Some(NoMt5Data)
              else if !MostlySafe(quotes, c) then Some(LowRatio)
              else if !QuotesPass(quotes, c) then Some(SpreadTooWide)
              else None
  {
    KeysAreEvents(log, w, k);
    BarsHoldEvents(log, w, k, lib);
    ChainsAgree(log, w, k, lib, c, "");
    if Filter(log.mt5, QuoteWithin(w, k)) != [] {
      RatioFromEvents(log, w, k, lib, c);
      RowPasses(log, w, k, lib, c);
    }
  }

  /** The quality flag names the same first obstacle; a row without one is usable, or diagnostic by its size. */
  lemma FlagFromEvents(log: Log, w: int, k: int, lib: Library, c: Config, name: string)
    requires w > 0 && k % w == 0 && ValidMeansPositive(log.cme)
    ensures var quotes := Filter(log.mt5, QuoteWithin(w, k));
            QualityFlag(BaseRowAt(log, w, k, lib), c, name) ==
              if Filter(log.cme, Within(w, k)) == [] then MissingCme
              else if quotes == [] then MissingMt5
              else if !MostlySafe(quotes, c) then LowJoinSafeRatio
              else if !QuotesPass(quotes, c) then SpreadExtremeBar
              else if name == "5s" then DiagnosticOnly
              else Usable
  {
    ReasonFromEvents(log, w, k, lib, c);
    ChainsAgree(log, w, k, lib, c, name);
  }

  lemma KeysAreEvents(log: Log, w: int, k: int)
    requires w > 0 && k % w == 0
    ensures k in CmeKeys(log.cme, w) <==> Filter(log.cme, Within(w, k)) != []
    ensures k in Mt5Keys(log.mt5, w) <==> Filter(log.mt5, QuoteWithin(w, k)) != []
  {
    CmeKeysExact(log.cme, w, k);
    Mt5KeysExact(log.mt5, w, k);
    GroupIsBucket(log.cme, w, k);
    SortPermutes(Filter(log.cme, Within(w, k)), TradeLeq);
    QuotesAreBucket(log.mt5, w, k);
  }

  // ----- the trailing window of a score

  /** The column's values in the rows that end with row i, at most 20 of them. */
  function LastRows(frame: seq<BaseRow>, i: nat, f: BaseRow -> Option<real>): (r: seq<Option<real>>)
    requires i < |frame|
    ensures |r| == if i + 1 < 20 then i + 1 else 20
    ensures forall j :: 0 <= j < |r| ==> r[j] == f(frame[i + 1 - |r| + j])
  {
    var n := if i + 1 < 20 then i + 1 else 20;
    seq(n, j requires 0 <= j < n => f(frame[i + 1 - n + j]))
  }

  ghost predicate SameColumn(f: BaseRow -> Option<real>, g: BaseRow -> Option<real>) { forall r :: f(r) == g(r) }

  lemma ScoreIsTrailing(frame: seq<BaseRow>, i: nat, f: BaseRow -> Option<real>, g: BaseRow -> Option<real>, lib: Library)
    requires i < |frame| && SameColumn(f, g)
    ensures Score(frame, i, f, lib) == ZScore(LastRows(frame, i, g), lib.root)
  {
    assert Trailing(frame, i, f) == LastRows(frame, i, g);
  }

  function TradedVolume(): BaseRow -> Option<real> { (r: BaseRow) => if r.cme.Some? then Some(r.cme.value.totalVolume as real) else None }
  function Trades(): BaseRow -> Option<real> { (r: BaseRow) => if r.cme.Some? then Some(r.cme.value.count as real) else None }
  function Quotes(): BaseRow -> Option<real> { (r: BaseRow) => if r.mt5.Some? then Some(r.mt5.value.tickCount as real) else None }
  function WideSpread(): BaseRow -> Option<real> { (r: BaseRow) => if r.mt5.Some? then Some(r.mt5.value.spreadPrice.p95) else None }

  function HighLowRange(): BaseRow -> Option<real> {
    (r: BaseRow) =>
      if r.cme.Some? && r.cme.value.low > 0.0 then Some((r.cme.value.high - r.cme.value.low) / r.cme.value.low * 10000.0) else None
  }

  ghost predicate TrailingScores(z: Scores, frame: seq<BaseRow>, i: nat, lib: Library)
    requires i < |frame|
  {
    && z.volume == ZScore(LastRows(frame, i, TradedVolume()), lib.root)
    && z.tradeCount == ZScore(LastRows(frame, i, Trades()), lib.root)
    && z.range == ZScore(LastRows(frame, i, HighLowRange()), lib.root)
    && z.spread == ZScore(LastRows(frame, i, WideSpread()), lib.root)
    && z.tickCount == ZScore(LastRows(frame, i, Quotes()), lib.root)
  }

  lemma TableRow(log: Log, bucket: BucketSize, c: Config, lib: Library, i: nat)
    requires bucket.ns > 0 && i < |Frame(log, bucket.ns, lib)|
    ensures |Table(log, bucket, c, lib)| == |Frame(log, bucket.ns, lib)|
    ensures Table(log, bucket, c, lib)[i] == FeatureRowAt(Frame(log, bucket.ns, lib), i, bucket, c, lib)
  {
  }

  /** Each score of a stored row is the z-score of its own bar column over at most 20 rows up to that row. */
  lemma ScoresAreTrailing(log: Log, bucket: BucketSize, c: Config, lib: Library, i: nat)
    requires bucket.ns > 0 && i < |Frame(log, bucket.ns, lib)|
    ensures TrailingScores(Table(log, bucket, c, lib)[i].scores, Frame(log, bucket.ns, lib), i, lib)
  {
    TableRow(log, bucket, c, lib, i);
    ScoresOfRow(Frame(log, bucket.ns, lib), i, lib);
  }

  lemma BarColumns()
    ensures SameColumn(Volume, TradedVolume()) && SameColumn(TradeCount, Trades()) && SameColumn(TickCount, Quotes())
    ensures SameColumn(SpreadP95, WideSpread()) && SameColumn(RangeBps, HighLowRange())
  {
  }

  lemma ScoresOfRow(frame: seq<BaseRow>, i: nat, lib: Library)
    requires i < |frame|
    ensures TrailingScores(ScoresAt(frame, i, lib), frame, i, lib)
  {
    BarColumns();
    ScoreIsTrailing(frame, i, Volume, TradedVolume(), lib);
    ScoreIsTrailing(frame, i, TradeCount, Trades(), lib);
    ScoreIsTrailing(frame, i, RangeBps, HighLowRange(), lib);
    ScoreIsTrailing(frame, i, SpreadP95, WideSpread(), lib);
    ScoreIsTrailing(frame, i, TickCount, Quotes(), lib);
  }

  // ----- what a row's columns say about its bars and the bars before

  function LastPrice(bar: Option<CmeBar>): Option<real> { if bar.Some? then Some(bar.value.last) else None }
  function AveragePrice(bar: Option<CmeBar>): Option<real> { if bar.Some? then bar.value.vwap else None }
  function LastMid(bar: Option<Mt5Bar>): Option<real> { if bar.Some? then Some(bar.value.midLast) else None }

  /** A return column: null unless both prices exist, non-finite after a zero, and else it leads from one price to the other. */
  ghost predicate Leads(cell: Cell, previous: Option<real>, current: Option<real>) {
    if previous.None? || current.None? then cell == Null
    else if previous.value == 0.0 then cell == NonFinite
    else cell.Number? && cell.value * previous.value == current.value - previous.value
  }

  /** A column in basis points: null without a positive base, and else the base times it is the difference times 10000. */
  ghost predicate InBps(column: Option<real>, difference: real, base: real) {
    if base <= 0.0 then column.None? else column.Some? && column.value * base == difference * 10000.0
  }

  lemma GuardedBpsMeans(difference: real, base: real)
    ensures InBps(GuardedBps(difference, base), difference, base)
  {
    if base > 0.0 {
      var q := difference / base;
      DivideBack(difference, base);
      assert q * 10000.0 * base == q * base * 10000.0;
    }
  }

  lemma ShareMeans(part: int, total: int)
    ensures PartOf(Share(part, total), part as real, total)
  {
    if total > 0 { DivideBack(part as real, total as real); }
  }

  lemma ReturnLeads(frame: seq<BaseRow>, i: nat, f: BaseRow -> Option<real>, previous: Option<real>, current: Option<real>)
    requires i < |frame| && current == f(frame[i]) && previous == if i == 0 then None else f(frame[i - 1])
    ensures Leads(Return(frame, i, f), previous, current)
  {
    if previous.Some? && current.Some? && previous.value != 0.0 { DivideBack(current.value - previous.value, previous.value); }
  }

  /** The trade columns of a stored row, against the row's trade bar and the one before. */
  ghost predicate TradeColumns(f: CmeFeatures, previous: Option<CmeBar>, current: Option<CmeBar>, w: int) {
    && Leads(f.returnClose, LastPrice(previous), LastPrice(current)) && Leads(f.vwapReturn, AveragePrice(previous), AveragePrice(current))
    && match current
       case None =>
         && f.rangeBps.None? && f.tradeCount.None? && f.totalVolume.None? && f.buyRatio.None? && f.sellRatio.None?
         && f.unknownRatio.None? && f.signedRatio.None? && f.volumePerTrade.None? && f.intensity.None?
       case Some(bar) =>
         && InBps(f.rangeBps, bar.high - bar.low, bar.low)
         && f.tradeCount == Some(bar.count as real) && f.totalVolume == Some(bar.totalVolume as real)
         && PartOf(f.buyRatio, bar.buyVolume as real, bar.totalVolume) && PartOf(f.sellRatio, bar.sellVolume as real, bar.totalVolume)
         && PartOf(f.unknownRatio, bar.unknownVolume as real, bar.totalVolume) && f.signedRatio == bar.signedVolumeRatio
         && PartOf(f.volumePerTrade, bar.totalVolume as real, bar.count)
         && f.intensity.Some? && PerSecond(f.intensity.value, bar.count, w)
  }

  /** Events per second: times the bucket's nanoseconds it is the count times 10^9. */
  ghost predicate PerSecond(rate: real, count: nat, w: int) { rate * w as real == count as real * 1000000000.0 }

  lemma IntensityMeans(count: nat, w: int)
    requires w > 0
    ensures PerSecond(count as real / (w as real / NS_PER_SECOND), count, w)
  {
    var seconds := w as real / NS_PER_SECOND;
    DivideBack(w as real, NS_PER_SECOND);
    assert seconds > 0.0;
    var rate := count as real / seconds;
    DivideBack(count as real, seconds);
    assert rate * (seconds * NS_PER_SECOND) == rate * seconds * NS_PER_SECOND;
  }

  lemma TradeColumnsOfRow(frame: seq<BaseRow>, i: nat, w: int)
    requires i < |frame| && w > 0
    ensures TradeColumns(CmeFeaturesAt(frame, i, w), if i == 0 then None else frame[i - 1].cme, frame[i].cme, w)
    ensures CmeFeaturesAt(frame, i, w).stats == frame[i].stats
  {
    var previous: Option<CmeBar> := if i == 0 then None else frame[i - 1].cme;
    ReturnLeads(frame, i, CmeClose, LastPrice(previous), LastPrice(frame[i].cme));
    ReturnLeads(frame, i, CmeVwap, AveragePrice(previous), AveragePrice(frame[i].cme));
    if frame[i].cme.Some? {
      var bar := frame[i].cme.value;
      GuardedBpsMeans(bar.high - bar.low, bar.low);
      ShareMeans(bar.buyVolume, bar.totalVolume);
      ShareMeans(bar.sellVolume, bar.totalVolume);
      ShareMeans(bar.unknownVolume, bar.totalVolume);
      ShareMeans(bar.totalVolume, bar.count);
      IntensityMeans(bar.count, w);
    }
  }

  /** The quote columns of a stored row, against the row's quote bar and the one before. */
  ghost predicate QuoteColumns(f: Mt5Features, previous: Option<Mt5Bar>, current: Option<Mt5Bar>) {
    && Leads(f.midReturn, LastMid(previous), LastMid(current))
    && match current
       case None =>
         && f.midRangeBps.None? && f.spreadPrice.None? && f.spreadPoints.None? && f.joinSafeRatio.None? && f.tickCount.None?
         && f.residualP50.None? && f.residualP95.None? && f.residualMax.None?
       case Some(bar) =>
         && InBps(f.midRangeBps, bar.midMax - bar.midMin, bar.midMin)
         && f.spreadPrice == Some(bar.spreadPrice) && f.spreadPoints == Some(bar.spreadPoints)
         && f.joinSafeRatio == Some(bar.joinSafeRatio) && f.tickCount == Some(bar.tickCount as real)
         && f.residualP50 == Some(bar.residualP50) && f.residualP95 == Some(bar.residualP95) && f.residualMax == Some(bar.residualMax)
  }

  lemma QuoteColumnsOfRow(frame: seq<BaseRow>, i: nat)
    requires i < |frame|
    ensures QuoteColumns(Mt5FeaturesAt(frame, i), if i == 0 then None else frame[i - 1].mt5, frame[i].mt5)
  {
    var previous: Option<Mt5Bar> := if i == 0 then None else frame[i - 1].mt5;
    ReturnLeads(frame, i, MidClose, LastMid(previous), LastMid(frame[i].mt5));
    if frame[i].mt5.Some? {
      var bar := frame[i].mt5.value;
      GuardedBpsMeans(bar.midMax - bar.midMin, bar.midMin);
    }
  }

  /** The basis: null unless the row has both closes, and else the mid's distance from the trade close in basis points of it. */
  ghost predicate IsBasis(column: Option<real>, r: BaseRow) {
    if r.cme.None? || r.mt5.None? then column.None? else InBps(column, r.mt5.value.midLast - r.cme.value.last, r.cme.value.last)
  }

  lemma BasisMeans(r: BaseRow)
    ensures IsBasis(BasisBps(r), r)
  {
    if r.cme.Some? && r.mt5.Some? { GuardedBpsMeans(r.mt5.value.midLast - r.cme.value.last, r.cme.value.last); }
  }

  /** The quote return minus the trade return: null if either is, non-finite if either is. */
  ghost predicate IsDifference(cell: Cell, quote: Cell, trade: Cell) {
    && (cell.Null? <==> quote.Null? || trade.Null?)
    && (cell.NonFinite? <==> !cell.Null? && (quote.NonFinite? || trade.NonFinite?))
    && (cell.Number? ==> quote.Number? && trade.Number? && cell.value + trade.value == quote.value)
  }

  ghost predicate ColumnsSay(row: FeatureRow, frame: seq<BaseRow>, i: nat, w: int)
    requires i < |frame|
  {
    && row.start == frame[i].start && row.end == frame[i].start + w
    && TradeColumns(row.cme, if i == 0 then None else frame[i - 1].cme, frame[i].cme, w) && row.cme.stats == frame[i].stats
    && QuoteColumns(row.mt5, if i == 0 then None else frame[i - 1].mt5, frame[i].mt5)
    && IsBasis(row.cross.basisBps, frame[i]) && IsDifference(row.cross.returnDiff, row.mt5.midReturn, row.cme.returnClose)
  }

  lemma RowColumnsSay(frame: seq<BaseRow>, i: nat, bucket: BucketSize, c: Config, lib: Library)
    requires i < |frame| && bucket.ns > 0
    ensures ColumnsSay(FeatureRowAt(frame, i, bucket, c, lib), frame, i, bucket.ns)
  {
    TradeColumnsOfRow(frame, i, bucket.ns);
    QuoteColumnsOfRow(frame, i);
    BasisMeans(frame[i]);
  }

  /** The columns of every stored row say what its bars, and the row before, hold. */
  lemma ColumnsMean(log: Log, bucket: BucketSize, c: Config, lib: Library, i: nat)
    requires bucket.ns > 0 && i < |Frame(log, bucket.ns, lib)|
    ensures ColumnsSay(Table(log, bucket, c, lib)[i], Frame(log, bucket.ns, lib), i, bucket.ns)
  {
    TableRow(log, bucket, c, lib, i);
    RowColumnsSay(Frame(log, bucket.ns, lib), i, bucket, c, lib);
  }
}
