/** What the stored feature columns say together: shares, compounding returns, adding basis changes. */
module FeatureIdentities {
  import opened Sequences
  import opened Arithmetic
  import opened Moments
  import opened BarAggregation
  import opened BarFeatures

  // ----- the size statistics describe the same trades as the bar

  lemma {:induction false} SizesSum(g: seq<Trade>)
    ensures RealSum(Sizes(g), Id) == Sum(g, SizeOf) as real
  {
    if g != [] {
      SizesSum(g[1..]);
      assert Sizes(g)[0] == g[0].size as real && Sizes(g)[1..] == Sizes(g[1..]);
    }
  }

  /** The arrival-order group and the time-ordered group of a bucket hold the same trades. */
  lemma SameTrades(trades: seq<Trade>, w: int, b: int)
    ensures TradeGroup(trades, w, b) == SortBy(ArrivalGroup(trades, w, b), TradeLeq)
    ensures |TradeGroup(trades, w, b)| == |ArrivalGroup(trades, w, b)|
    ensures Sum(TradeGroup(trades, w, b), SizeOf) == Sum(ArrivalGroup(trades, w, b), SizeOf)
  {
    FilterSort(Filter(trades, IsValid), TradeLeq, TradeIn(w, b));
    SortPermutes(ArrivalGroup(trades, w, b), TradeLeq);
    SortSum(ArrivalGroup(trades, w, b), TradeLeq, SizeOf, Notional);
  }

  /** A bar and the size statistics of its bucket are present together and agree on the mean trade size. */
  lemma StatsMatchBar(log: Log, w: int, b: int, lib: Library)
    ensures var r := BaseRowAt(log, w, b, lib);
            && (r.stats.Some? <==> r.cme.Some?)
            && (r.cme.Some? ==> r.cme.value.count > 0 && r.stats.value.mean == r.cme.value.totalVolume as real / r.cme.value.count as real)
  {
    SameTrades(log.cme, w, b);
    SizesSum(ArrivalGroup(log.cme, w, b));
  }

  // ----- volume columns

  lemma SharesAddUp(buy: int, sell: int, unknown: int, total: int)
    requires total > 0 && buy + sell + unknown == total
    ensures Share(buy, total).value + Share(sell, total).value + Share(unknown, total).value == 1.0
    ensures Share(buy, total).value - Share(sell, total).value == SignedRatio(buy - sell, total).value
  {
    var t := total as real;
    QuotientsAdd(buy as real, sell as real, t);
    QuotientsAdd((buy + sell) as real, unknown as real, t);
    QuotientsAdd(sell as real, (buy - sell) as real, t);
    assert (buy + sell) as real == buy as real + sell as real;
    assert t / t == 1.0;
  }

  lemma QuotientsAdd(x: real, y: real, t: real)
    requires t != 0.0
    ensures x / t + y / t == (x + y) / t
  {
  }

  /** What a joined row of a build says about its trades. */
  predicate TradesConsistent(r: BaseRow) {
    && (r.stats.Some? <==> r.cme.Some?)
    && (r.cme.Some? ==>
          && r.cme.value.count > 0 && r.cme.value.totalVolume > 0
          && r.cme.value.buyVolume + r.cme.value.sellVolume + r.cme.value.unknownVolume == r.cme.value.totalVolume
          && r.cme.value.signedVolumeRatio == SignedRatio(r.cme.value.buyVolume - r.cme.value.sellVolume, r.cme.value.totalVolume)
          && r.stats.value.mean == r.cme.value.totalVolume as real / r.cme.value.count as real)
  }

  lemma BuiltRowsAreConsistent(log: Log, w: int, b: int, lib: Library)
    requires w > 0 && ValidMeansPositive(log.cme)
    ensures TradesConsistent(BaseRowAt(log, w, b, lib))
  {
    StatsMatchBar(log, w, b, lib);
    BarsHoldEvents(log, w, b, lib);
    if TradeGroup(log.cme, w, b) != [] { BarSplitsExactly(TradeGroup(log.cme, w, b), b); }
  }

  /**
   * The volume columns of a row with trades: the three shares add up to one and differ by the signed
   * ratio, and volume per trade is the separately grouped mean trade size.
   */
  lemma VolumeColumns(frame: seq<BaseRow>, i: nat, w: int)
    requires i < |frame| && w > 0 && TradesConsistent(frame[i]) && frame[i].cme.Some?
    ensures var row := CmeFeaturesAt(frame, i, w);
            && row.buyRatio.Some? && row.sellRatio.Some? && row.unknownRatio.Some? && row.signedRatio.Some? && row.stats.Some?
            && row.buyRatio.value + row.sellRatio.value + row.unknownRatio.value == 1.0
            && row.buyRatio.value - row.sellRatio.value == row.signedRatio.value
            && row.volumePerTrade == Some(row.stats.value.mean)
  {
    var bar := frame[i].cme.value;
    SharesAddUp(bar.buyVolume, bar.sellVolume, bar.unknownVolume, bar.totalVolume);
  }

  // ----- columns over runs of rows

  function TradeReturn(r: FeatureRow): Cell { r.cme.returnClose }
  function QuoteReturn(r: FeatureRow): Cell { r.mt5.midReturn }

  /** The column holds numbers after row i up to row j. */
  ghost predicate Numbers(table: seq<FeatureRow>, column: FeatureRow -> Cell, i: nat, j: nat)
    requires i <= j < |table|
  {
    forall k :: i < k <= j ==> column(table[k]).Number?
  }

  /** A price carried from row i to row j through a return column. */
  ghost function Carried(table: seq<FeatureRow>, column: FeatureRow -> Cell, start: real, i: nat, j: nat): real
    requires i <= j < |table| && Numbers(table, column, i, j)
  {
    if i == j then start else Grown(Carried(table, column, start, i, j - 1), column(table[j]).value)
  }

  function Grown(price: real, r: real): real { price * (1.0 + r) }

  /** The table stores the returns of a price of the joined rows. */
  ghost predicate StoresReturns(table: seq<FeatureRow>, frame: seq<BaseRow>, column: FeatureRow -> Cell, price: BaseRow -> Option<real>) {
    |table| == |frame| && forall k :: 0 <= k < |table| ==> column(table[k]) == Return(frame, k, price)
  }

  lemma GrowthInverts(previous: real, current: real)
    requires previous != 0.0
    ensures Grown(previous, (current - previous) / previous) == current
  {
    DivideBack(current - previous, previous);
    Distribute(previous, 1.0, (current - previous) / previous);
  }

  lemma NextPrice(frame: seq<BaseRow>, j: nat, price: BaseRow -> Option<real>)
    requires j < |frame| && Return(frame, j, price).Number?
    ensures j > 0 && price(frame[j]).Some? && price(frame[j - 1]).Some?
    ensures price(frame[j]).value == Grown(price(frame[j - 1]).value, Return(frame, j, price).value)
  {
    GrowthInverts(price(frame[j - 1]).value, price(frame[j]).value);
  }

  lemma {:induction false} ColumnCarries(table: seq<FeatureRow>, frame: seq<BaseRow>, column: FeatureRow -> Cell,
                                         price: BaseRow -> Option<real>, i: nat, j: nat)
    requires StoresReturns(table, frame, column, price) && i < j < |table| && Numbers(table, column, i, j)
    ensures price(frame[i]).Some? && price(frame[j]).Some?
    ensures price(frame[j]).value == Carried(table, column, price(frame[i]).value, i, j)
  {
    assert column(table[j]) == Return(frame, j, price);
    NextPrice(frame, j, price);
    if i + 1 < j { ColumnCarries(table, frame, column, price, i, j - 1); }
  }

  lemma TableStoresReturns(log: Log, bucket: BucketSize, c: Config, lib: Library)
    requires bucket.ns > 0
    ensures StoresReturns(Table(log, bucket, c, lib), Frame(log, bucket.ns, lib), TradeReturn, CmeClose)
    ensures StoresReturns(Table(log, bucket, c, lib), Frame(log, bucket.ns, lib), QuoteReturn, MidClose)
  {
  }

  /** Over any run of stored rows a return column carries the first price to the last. */
  ghost predicate CarriesPrice(table: seq<FeatureRow>, frame: seq<BaseRow>, column: FeatureRow -> Cell, price: BaseRow -> Option<real>) {
    forall i, j :: 0 <= i < j < |table| == |frame| && Numbers(table, column, i, j) ==>
      && price(frame[i]).Some? && price(frame[j]).Some?
      && price(frame[j]).value == Carried(table, column, price(frame[i]).value, i, j)
  }

  lemma ReturnsCarry(table: seq<FeatureRow>, frame: seq<BaseRow>, column: FeatureRow -> Cell, price: BaseRow -> Option<real>)
    requires StoresReturns(table, frame, column, price)
    ensures CarriesPrice(table, frame, column, price)
  {
    forall i: nat, j: nat | i < j < |table| && Numbers(table, column, i, j)
      ensures price(frame[i]).Some? && price(frame[j]).Some?
      ensures price(frame[j]).value == Carried(table, column, price(frame[i]).value, i, j)
    {
      ColumnCarries(table, frame, column, price, i, j);
    }
  }

  /** In every stored table the trade returns compound to the trade closes and the quote returns to the closing mids. */
  lemma ReturnsCompound(log: Log, bucket: BucketSize, c: Config, lib: Library)
    requires bucket.ns > 0
    ensures CarriesPrice(Table(log, bucket, c, lib), Frame(log, bucket.ns, lib), TradeReturn, CmeClose)
    ensures CarriesPrice(Table(log, bucket, c, lib), Frame(log, bucket.ns, lib), QuoteReturn, MidClose)
  {
    TableStoresReturns(log, bucket, c, lib);
    ReturnsCarry(Table(log, bucket, c, lib), Frame(log, bucket.ns, lib), TradeReturn, CmeClose);
    ReturnsCarry(Table(log, bucket, c, lib), Frame(log, bucket.ns, lib), QuoteReturn, MidClose);
  }

  ghost predicate ChangesPresent(table: seq<FeatureRow>, i: nat, j: nat)
    requires i <= j < |table|
  {
    forall k :: i < k <= j ==> table[k].cross.basisChangeBps.Some?
  }

  /** The basis changes after row i up to row j, added up. */
  ghost function ChangeSum(table: seq<FeatureRow>, i: nat, j: nat): real
    requires i <= j < |table| && ChangesPresent(table, i, j)
  {
    if i == j then 0.0 else ChangeSum(table, i, j - 1) + table[j].cross.basisChangeBps.value
  }

  ghost predicate BasisAt(table: seq<FeatureRow>, k: nat)
    requires k < |table|
  {
    table[k].cross.basisChangeBps == if k == 0 then None else Minus(table[k].cross.basisBps, table[k - 1].cross.basisBps)
  }

  lemma {:induction false} ChangesAddUp(table: seq<FeatureRow>, i: nat, j: nat)
    requires i < j < |table| && ChangesPresent(table, i, j) && forall k :: 0 <= k < |table| ==> BasisAt(table, k)
    ensures table[i].cross.basisBps.Some? && table[j].cross.basisBps.Some?
    ensures table[i].cross.basisBps.value + ChangeSum(table, i, j) == table[j].cross.basisBps.value
  {
    assert BasisAt(table, j);
    if i + 1 < j {
      ChangesAddUp(table, i, j - 1);
    } else {
      assert ChangeSum(table, i, i) == 0.0;
    }
  }

  lemma TableStoresBasis(log: Log, bucket: BucketSize, c: Config, lib: Library, k: nat)
    requires bucket.ns > 0 && k < |Table(log, bucket, c, lib)|
    ensures BasisAt(Table(log, bucket, c, lib), k)
  {
  }

  /** Over any run of rows the stored basis changes add up to the difference of the stored bases. */
  lemma BasisChangesAddUp(log: Log, bucket: BucketSize, c: Config, lib: Library, i: nat, j: nat)
    requires bucket.ns > 0 && i < j < |Table(log, bucket, c, lib)| && ChangesPresent(Table(log, bucket, c, lib), i, j)
    ensures var table := Table(log, bucket, c, lib);
            && table[i].cross.basisBps.Some? && table[j].cross.basisBps.Some?
            && table[i].cross.basisBps.value + ChangeSum(table, i, j) == table[j].cross.basisBps.value
  {
    var table := Table(log, bucket, c, lib);
    forall k | 0 <= k < |table| ensures BasisAt(table, k) { TableStoresBasis(log, bucket, c, lib, k); }
    ChangesAddUp(table, i, j);
  }
}
