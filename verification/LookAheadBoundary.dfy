/** Exactly when later events leave the exported rows unchanged, and an export that they change. */
module LookAheadBoundary {
  import opened Sequences
  import opened BarAggregation
  import opened BarFeatures
  import opened FeatureExport
  import opened NoLookAhead
  import opened Units

  // ----- exactly when the frame is stable

  /** No extension by late events changes the frame up to a bucket. */
  ghost predicate Stable(log: Log, w: int, watermark: int, top: int)
    requires w > 0
  {
    forall later :: Late(later, watermark) ==> SameKeysUpTo(log, Extend(log, later), w, top)
  }

  function LateEvents(t: int): Log {
    Log([Trade(t * MS_TO_NS, 1.0, 1, Buy, true)], [Tick(t, true, 1.0, 0.0, 0, 0, false)])
  }

  lemma LateEventsTimes(t: int)
    ensures TradeTimes(LateEvents(t).cme) == [t * MS_TO_NS] && TickTimes(LateEvents(t).mt5) == [t * MS_TO_NS]
    ensures forall x :: x in LateEvents(t).cme ==> x.timeNs == t * MS_TO_NS && x.size == 1 && x.price == 1.0
    ensures forall x :: x in LateEvents(t).mt5 ==> TickNs(x) == t * MS_TO_NS && x.timeMs == t
  {
  }

  function Magnitude(x: int): nat { if x < 0 then -x else x }

  lemma LateEventsOverlap(log: Log, watermark: int) returns (later: Log)
    requires Populated(log) && PositiveQuotes(log)
    ensures Late(later, watermark) && Populated(Extend(log, later))
    ensures Opening(Extend(log, later)) <= Closing(Extend(log, later)) && Opening(log) <= Closing(Extend(log, later))
    ensures Opening(Extend(log, later)) == Opening(log) && PositiveQuotes(Extend(log, later))
  {
    var t := Magnitude(watermark) + Magnitude(Opening(log)) + 1;
    later := LateEvents(t);
    LateEventsTimes(t);
    FirstsSurvive(log, later);
    LastsReach(log, later, t * MS_TO_NS);
  }

  lemma LastsReach(log: Log, later: Log, x: int)
    requires x in TradeTimes(later.cme) && x in TickTimes(later.mt5)
    ensures Populated(Extend(log, later)) && x <= Closing(Extend(log, later))
  {
    TimesAppend(log, later);
    assert x in TradeTimes(log.cme) + TradeTimes(later.cme) && x in TickTimes(log.mt5) + TickTimes(later.mt5);
  }

  lemma FirstsSurvive(log: Log, later: Log)
    requires Populated(log)
    requires forall t :: t in later.cme ==> t.timeNs >= Opening(log)
    requires forall t :: t in later.mt5 ==> TickNs(t) >= Opening(log)
    ensures Populated(Extend(log, later)) && Opening(Extend(log, later)) == Opening(log)
  {
    TimesAppend(log, later);
    TradeTimesExact(later.cme);
    TickTimesExact(later.mt5);
    ExtremesOfAppend(TradeTimes(log.cme), TradeTimes(later.cme));
    ExtremesOfAppend(TickTimes(log.mt5), TickTimes(later.mt5));
  }

  /** An unsettled log has a bucket that one late trade and one late quote remove from the frame. */
  lemma UnsettledIsUnstable(log: Log, w: int, watermark: int, top: int)
    requires w > 0 && CoPresent(log, w, top) && PositiveQuotes(log) && !Settled(log, w)
    ensures !Stable(log, w, watermark, top)
  {
    CoPresentPins(log, w, top);
    OverlapWhenPositive(log);
    var k :| k in JoinKeys(log, w) && k + w <= Opening(log);
    assert k in FrameKeys(log, w);
    var later := LateEventsOverlap(log, watermark);
    OverlapWhenPositive(Extend(log, later));
    assert k !in FrameKeys(Extend(log, later), w);
    assert k <= top;
  }

  /**
   * The condition is exact: the frame up to a closed bucket with both sources is the same under every
   * extension by late events if and only if the log is settled.
   */
  lemma StableIffSettled(log: Log, w: int, watermark: int, top: int, lib: Library)
    requires w > 0 && CoPresent(log, w, top) && top + w <= watermark && PositiveQuotes(log)
    ensures Stable(log, w, watermark, top) <==> Settled(log, w)
  {
    if Settled(log, w) {
      forall later | Late(later, watermark) ensures SameKeysUpTo(log, Extend(log, later), w, top) {
        ExtensionAgrees(log, later, watermark);
        ExtensionStaysSettled(log, later, watermark, w, top, lib);
        SettledPrefixesAgree(log, Extend(log, later), watermark, w, top, lib);
      }
    } else {
      UnsettledIsUnstable(log, w, watermark, top);
    }
  }

  // ----- exactly when the exported rows are stable

  lemma RowOfPartition(source: Source, bucket: BucketSize, c: Config, lib: Library, i: nat)
    requires bucket.ns > 0 && i < |Partition(source, bucket, c, lib)|
    ensures var frame, p := Frame(source.log, bucket.ns, lib), Partition(source, bucket, c, lib);
            && p[i].row.cme.returnClose == Return(frame, i, CmeClose)
            && p[i].row.mt5.midReturn == Return(frame, i, MidClose)
            && p[i].row.start == frame[i].start && p[i].row.end == frame[i].start + bucket.ns
            && p[i].row.eligible == Eligible(frame[i], c, bucket.name)
            && p[i].size == bucket.name && p[i].pair == source.pair
  {
    PartitionRow(source, bucket, c, lib, i);
  }

  /** A row that looks back on the row before it: one of its two close returns is present. */
  predicate LooksBack(r: FeatureRow) { !r.cme.returnClose.Null? || !r.mt5.midReturn.Null? }

  lemma FirstRowLooksAtNothing(source: Source, bucket: BucketSize, c: Config, lib: Library)
    requires bucket.ns > 0 && Partition(source, bucket, c, lib) != []
    ensures !LooksBack(Partition(source, bucket, c, lib)[0].row)
  {
    RowOfPartition(source, bucket, c, lib, 0);
  }

  /** A row with both sources that is not the first one looks back on whatever the row before it holds. */
  lemma LaterRowLooksBack(source: Source, bucket: BucketSize, c: Config, lib: Library, i: nat)
    requires bucket.ns > 0 && ValidMeansPositive(source.log.cme) && 0 < i < |Partition(source, bucket, c, lib)|
    requires CoPresent(source.log, bucket.ns, Frame(source.log, bucket.ns, lib)[i].start)
    ensures LooksBack(Partition(source, bucket, c, lib)[i].row)
  {
    var w := bucket.ns;
    var keys := AscendingOf(FrameKeys(source.log, w));
    RowOfPartition(source, bucket, c, lib, i);
    assert keys[i - 1] in keys;
    BarsHoldEvents(source.log, w, keys[i - 1], lib);
    BarsHoldEvents(source.log, w, keys[i], lib);
  }

  lemma JoinKeysAligned(log: Log, w: int, k: int)
    requires w > 0 && k in JoinKeys(log, w)
    ensures k % w == 0
  {
    CmeKeysExact(log.cme, w, k);
    Mt5KeysExact(log.mt5, w, k);
  }

  /** Where the clip is off, a co-present bucket holds both the closing and the opening. */
  lemma GapLiesInBucket(log: Log, w: int, top: int)
    requires w > 0 && CoPresent(log, w, top) && !Settled(log, w)
    ensures Populated(log) && top <= Closing(log) < Opening(log) < top + w
    ensures FrameKeys(log, w) == JoinKeys(log, w)
    ensures exists k :: k in JoinKeys(log, w) && k < top
  {
    CoPresentPins(log, w, top);
    var k :| k in JoinKeys(log, w) && k + w <= Opening(log);
    assert k < top;
  }

  /** An extension that makes the sources overlap clips every bucket before it. */
  lemma ClipStartsAt(log: Log, later: Log, watermark: int, w: int, top: int, lib: Library)
    requires w > 0 && CoPresent(log, w, top) && top + w <= watermark && !Settled(log, w) && Late(later, watermark)
    requires Populated(log) && Populated(Extend(log, later)) && PositiveQuotes(Extend(log, later))
    requires Opening(Extend(log, later)) == Opening(log) <= Closing(Extend(log, later))
    ensures forall k :: k in FrameKeys(Extend(log, later), w) ==> k >= top
  {
    var x := Extend(log, later);
    GapLiesInBucket(log, w, top);
    OverlapWhenPositive(x);
    ExtensionAgrees(log, later, watermark);
    ClosedRowsAgree(log, x, watermark, w, top, lib);
    JoinKeysAligned(x, w, top);
    forall k | k in FrameKeys(x, w) ensures k >= top {
      JoinKeysAligned(x, w, k);
      if k < top { AlignedApart(k, top, w); }
    }
  }

  lemma AscendingFirst(keys: set<int>, j: nat)
    requires j < |AscendingOf(keys)| && forall k :: k in keys ==> AscendingOf(keys)[j] <= k
    ensures j == 0
  {
    assert AscendingOf(keys)[0] in AscendingOf(keys);
  }

  lemma AscendingNotFirst(keys: set<int>, j: nat, k: int)
    requires j < |AscendingOf(keys)| && k in keys && k < AscendingOf(keys)[j]
    ensures j > 0
  {
    assert k in AscendingOf(keys);
  }

  /**
   * One late trade and one late quote change an unguarded partition: the exported row of its only
   * co-present closed bucket looks back before them and is the first row after them.
   */
  lemma UnguardedPartitionChanges(source: Source, bucket: BucketSize, c: Config, lib: Library, watermark: int)
    returns (later: Log, r: ExportRow)
    requires bucket.ns > 0 && Ingested(source.log) && !Guarded(source, bucket, c, lib, watermark)
    ensures Late(later, watermark)
    ensures r in Partition(source, bucket, c, lib) && Selectable(r, watermark)
    ensures r !in Partition(Extended(source, later), bucket, c, lib)
  {
    var log, w := source.log, bucket.ns;
    NothingReadyExactly(source, bucket, c, lib, watermark);
    NothingExportedExactly(source, bucket, c, lib, watermark);
    var top := Member(ChosenKeys(log, bucket, c, lib, watermark));
    EligibleExactly(log, w, top, lib, c, bucket.name);
    GapLiesInBucket(log, w, top);
    var i := ChosenIsSelectable(source, bucket, c, lib, watermark, top);
    r := Partition(source, bucket, c, lib)[i];
    var k :| k in JoinKeys(log, w) && k < top;
    AscendingNotFirst(FrameKeys(log, w), i, k);
    LaterRowLooksBack(source, bucket, c, lib, i);
    RowOfPartition(source, bucket, c, lib, i);
    later := LateEventsOverlap(log, watermark);
    ClipStartsAt(log, later, watermark, w, top, lib);
    StartIsFirst(Extended(source, later), bucket, c, lib, top, r);
  }

  lemma StartIsFirst(x: Source, bucket: BucketSize, c: Config, lib: Library, top: int, r: ExportRow)
    requires bucket.ns > 0 && r.row.start == top && LooksBack(r.row)
    requires forall k :: k in FrameKeys(x.log, bucket.ns) ==> k >= top
    ensures r !in Partition(x, bucket, c, lib)
  {
    var p := Partition(x, bucket, c, lib);
    if r in p {
      var j: nat :| j < |p| && p[j] == r;
      RowOfPartition(x, bucket, c, lib, j);
      AscendingFirst(FrameKeys(x.log, bucket.ns), j);
      FirstRowLooksAtNothing(x, bucket, c, lib);
      assert false;
    }
  }

  /** No late events change what one partition exports. */
  ghost predicate PartitionUnchanged(source: Source, bucket: BucketSize, c: Config, lib: Library, watermark: int)
    requires bucket.ns > 0
  {
    forall later :: Late(later, watermark) ==>
      Filter(Partition(Extended(source, later), bucket, c, lib), SelectedBy(watermark))
      == Filter(Partition(source, bucket, c, lib), SelectedBy(watermark))
  }

  /**
   * The guard is exact for the exported values: no late events change the exported rows of a partition
   * if and only if its size is not exported, it is settled, or no bucket of it is ready for export.
   */
  lemma PartitionUnchangedIffGuarded(source: Source, bucket: BucketSize, c: Config, lib: Library, watermark: int)
    requires bucket.ns > 0 && Ingested(source.log)
    ensures PartitionUnchanged(source, bucket, c, lib, watermark) <==> Guarded(source, bucket, c, lib, watermark)
  {
    if Guarded(source, bucket, c, lib, watermark) {
      forall later | Late(later, watermark)
        ensures Filter(Partition(Extended(source, later), bucket, c, lib), SelectedBy(watermark))
             == Filter(Partition(source, bucket, c, lib), SelectedBy(watermark))
      {
        ExtendedPartitionStable(source, later, bucket, c, lib, watermark);
      }
    } else {
      var later, r := UnguardedPartitionChanges(source, bucket, c, lib, watermark);
      FilterMembers(Partition(source, bucket, c, lib), SelectedBy(watermark));
      FilterMembers(Partition(Extended(source, later), bucket, c, lib), SelectedBy(watermark));
      assert r in Filter(Partition(source, bucket, c, lib), SelectedBy(watermark));
      assert r !in Filter(Partition(Extended(source, later), bucket, c, lib), SelectedBy(watermark));
    }
  }

  // ----- the whole export

  lemma PairSplits(source: Source, buckets: seq<BucketSize>, c: Config, lib: Library, r: ExportRow)
    requires ValidSizes(buckets) && buckets != []
    ensures r in PairRows(source, buckets, c, lib) <==>
            r in Partition(source, buckets[0], c, lib) || r in PairRows(source, buckets[1..], c, lib)
  {
  }

  lemma {:induction false} PartitionInPair(source: Source, buckets: seq<BucketSize>, bucket: BucketSize, c: Config, lib: Library, r: ExportRow)
    requires ValidSizes(buckets) && bucket in buckets && r in Partition(source, bucket, c, lib)
    ensures r in PairRows(source, buckets, c, lib)
  {
    PairSplits(source, buckets, c, lib, r);
    if bucket != buckets[0] { PartitionInPair(source, buckets[1..], bucket, c, lib, r); }
  }

  lemma BuildSplits(sources: seq<Source>, buckets: seq<BucketSize>, c: Config, lib: Library, r: ExportRow)
    requires ValidSizes(buckets) && sources != []
    ensures r in BuildRows(sources, buckets, c, lib) <==>
            r in PairRows(sources[0], buckets, c, lib) || r in BuildRows(sources[1..], buckets, c, lib)
  {
  }

  lemma {:induction false} PartitionInBuild(sources: seq<Source>, buckets: seq<BucketSize>, source: Source, bucket: BucketSize,
                                            c: Config, lib: Library, r: ExportRow)
    requires ValidSizes(buckets) && source in sources && bucket in buckets && r in Partition(source, bucket, c, lib)
    ensures r in BuildRows(sources, buckets, c, lib)
  {
    BuildSplits(sources, buckets, c, lib, r);
    if source == sources[0] {
      PartitionInPair(source, buckets, bucket, c, lib, r);
    } else {
      PartitionInBuild(sources[1..], buckets, source, bucket, c, lib, r);
    }
  }

  lemma {:induction false} PairOrigin(source: Source, buckets: seq<BucketSize>, c: Config, lib: Library, r: ExportRow) returns (d: nat)
    requires ValidSizes(buckets) && r in PairRows(source, buckets, c, lib)
    ensures d < |buckets| && r in Partition(source, buckets[d], c, lib) && r.pair == source.pair && r.size == buckets[d].name
  {
    var p := Partition(source, buckets[0], c, lib);
    PairSplits(source, buckets, c, lib, r);
    if r in p {
      d := 0;
      var j: nat :| j < |p| && p[j] == r;
      RowOfPartition(source, buckets[0], c, lib, j);
    } else {
      d := PairOrigin(source, buckets[1..], c, lib, r);
      d := d + 1;
    }
  }

  lemma PairOfRow(sources: seq<Source>, buckets: seq<BucketSize>, c: Config, lib: Library, r: ExportRow) returns (a: nat)
    requires ValidSizes(buckets) && r in BuildRows(sources, buckets, c, lib)
    ensures a < |sources| && r in PairRows(sources[a], buckets, c, lib)
  {
    var part := (x: Source) => PairRows(x, buckets, c, lib);
    var whole := (xs: seq<Source>) => BuildRows(xs, buckets, c, lib);
    a := PartOfMember(sources, part, whole, r);
  }

  lemma BuildOrigin(sources: seq<Source>, buckets: seq<BucketSize>, c: Config, lib: Library, r: ExportRow) returns (a: nat, d: nat)
    requires ValidSizes(buckets) && r in BuildRows(sources, buckets, c, lib)
    ensures a < |sources| && d < |buckets| && r.pair == sources[a].pair && r.size == buckets[d].name
    ensures r in Partition(sources[a], buckets[d], c, lib)
  {
    a := PairOfRow(sources, buckets, c, lib, r);
    d := PairOrigin(sources[a], buckets, c, lib, r);
  }

  lemma {:induction false} ExtendAllAt(sources: seq<Source>, later: seq<Log>, i: nat)
    requires |later| == |sources| && i < |sources|
    ensures |ExtendAll(sources, later)| == |sources| && ExtendAll(sources, later)[i] == Extended(sources[i], later[i])
  {
    if |sources| > 1 { ExtendAllAt(sources[1..], later[1..], if i == 0 then 0 else i - 1); }
    if i > 0 { assert ExtendAll(sources, later)[i] == ExtendAll(sources[1..], later[1..])[i - 1]; }
  }

  ghost predicate AllLate(sources: seq<Source>, later: seq<Log>, watermark: int) {
    |later| == |sources| && forall i :: 0 <= i < |later| ==> Late(later[i], watermark)
  }

  /** No late events, of any pair, change the exported rows of the build. */
  ghost predicate ExportUnchanged(sources: seq<Source>, buckets: seq<BucketSize>, c: Config, lib: Library, watermark: int)
    requires ValidSizes(buckets)
  {
    forall later :: AllLate(sources, later, watermark) ==>
      ExportRows(ExtendAll(sources, later), buckets, c, lib, watermark) == ExportRows(sources, buckets, c, lib, watermark)
  }

  ghost predicate AllGuarded(sources: seq<Source>, buckets: seq<BucketSize>, c: Config, lib: Library, watermark: int)
    requires ValidSizes(buckets)
  {
    forall a, d :: 0 <= a < |sources| && 0 <= d < |buckets| ==> Guarded(sources[a], buckets[d], c, lib, watermark)
  }

  /** Late events for one source only. */
  lemma LateForOne(sources: seq<Source>, a: nat, one: Log, watermark: int) returns (later: seq<Log>)
    requires a < |sources| && Late(one, watermark)
    ensures AllLate(sources, later, watermark) && later[a] == one
  {
    later := seq(|sources|, i requires 0 <= i < |sources| => if i == a then one else Log([], []));
  }

  lemma PartitionLabels(source: Source, bucket: BucketSize, c: Config, lib: Library, r: ExportRow)
    requires bucket.ns > 0 && r in Partition(source, bucket, c, lib)
    ensures r.pair == source.pair && r.size == bucket.name
  {
    var p := Partition(source, bucket, c, lib);
    var j: nat :| j < |p| && p[j] == r;
    RowOfPartition(source, bucket, c, lib, j);
  }

  /** Distinct pairs and sizes leave one partition that could still hold a row. */
  lemma RowLeavesBuild(sources: seq<Source>, later: seq<Log>, buckets: seq<BucketSize>, c: Config, lib: Library, a: nat, d: nat, r: ExportRow)
    requires ValidSizes(buckets) && DistinctNames(buckets) && DistinctPairs(sources) && a < |sources| == |later| && d < |buckets|
    requires r.pair == sources[a].pair && r.size == buckets[d].name
    requires r !in Partition(Extended(sources[a], later[a]), buckets[d], c, lib)
    ensures r !in BuildRows(ExtendAll(sources, later), buckets, c, lib)
  {
    if r in BuildRows(ExtendAll(sources, later), buckets, c, lib) {
      ExtendAllAt(sources, later, a);
      var i, e := BuildOrigin(ExtendAll(sources, later), buckets, c, lib, r);
      ExtendAllAt(sources, later, i);
      assert false;
    }
  }

  lemma UnguardedExportChanges(sources: seq<Source>, buckets: seq<BucketSize>, c: Config, lib: Library, watermark: int, a: nat, d: nat)
    returns (later: seq<Log>)
    requires ValidSizes(buckets) && DistinctNames(buckets) && DistinctPairs(sources) && a < |sources| && d < |buckets|
    requires Ingested(sources[a].log) && !Guarded(sources[a], buckets[d], c, lib, watermark)
    ensures AllLate(sources, later, watermark)
    ensures ExportRows(ExtendAll(sources, later), buckets, c, lib, watermark) != ExportRows(sources, buckets, c, lib, watermark)
  {
    var one, r := UnguardedPartitionChanges(sources[a], buckets[d], c, lib, watermark);
    later := LateForOne(sources, a, one, watermark);
    PartitionLabels(sources[a], buckets[d], c, lib, r);
    RowLeavesBuild(sources, later, buckets, c, lib, a, d, r);
    PartitionInBuild(sources, buckets, sources[a], buckets[d], c, lib, r);
    OneExportOnly(sources, ExtendAll(sources, later), buckets, c, lib, watermark, r);
  }

  lemma OneExportOnly(xs: seq<Source>, ys: seq<Source>, buckets: seq<BucketSize>, c: Config, lib: Library, watermark: int, r: ExportRow)
    requires ValidSizes(buckets) && Selectable(r, watermark)
    requires r in BuildRows(xs, buckets, c, lib) && r !in BuildRows(ys, buckets, c, lib)
    ensures ExportRows(ys, buckets, c, lib, watermark) != ExportRows(xs, buckets, c, lib, watermark)
  {
    ExportMembers(xs, buckets, c, lib, watermark);
    ExportMembers(ys, buckets, c, lib, watermark);
    assert r in ExportRows(xs, buckets, c, lib, watermark);
  }

  /**
   * The promise that later events never change exported rows holds of a build if and only if every
   * partition of an exported size is settled -- its sources overlap, or no bucket of its join ends by
   * the time both have begun -- or has no bucket ready for export.
   */
  lemma ExportUnchangedIffGuarded(sources: seq<Source>, buckets: seq<BucketSize>, c: Config, lib: Library, watermark: int)
    requires ValidSizes(buckets) && DistinctNames(buckets) && DistinctPairs(sources)
    requires forall a :: 0 <= a < |sources| ==> Ingested(sources[a].log)
    ensures ExportUnchanged(sources, buckets, c, lib, watermark) <==> AllGuarded(sources, buckets, c, lib, watermark)
  {
    if AllGuarded(sources, buckets, c, lib, watermark) {
      forall a | 0 <= a < |sources| ensures SafeSource(sources[a], buckets, c, lib, watermark) {
        forall b | b in buckets ensures Guarded(sources[a], b, c, lib, watermark) {
          var d :| 0 <= d < |buckets| && buckets[d] == b;
        }
      }
      forall later | AllLate(sources, later, watermark)
        ensures ExportRows(ExtendAll(sources, later), buckets, c, lib, watermark) == ExportRows(sources, buckets, c, lib, watermark)
      {
        NoLookAhead.NoLookAhead(sources, later, buckets, c, lib, watermark);
      }
    } else {
      var a, d :| 0 <= a < |sources| && 0 <= d < |buckets| && !Guarded(sources[a], buckets[d], c, lib, watermark);
      var later := UnguardedExportChanges(sources, buckets, c, lib, watermark, a, d);
    }
  }

  // ----- an unsettled log whose exported rows change

  const SECOND: int := 1_000_000_000
  const DEFAULTS: Config := Config(0.5, None)
  const QUARTER_MINUTE: BucketSize := BucketSize("15s", 15 * SECOND)

  const FIRST_TRADE: Trade := Trade(5 * SECOND, 100.0, 1, Buy, true)
  const SECOND_TRADE: Trade := Trade(16 * SECOND, 101.0, 1, Buy, true)
  const LATE_TRADE: Trade := Trade(35 * SECOND, 102.0, 1, Buy, true)
  const ONLY_QUOTE: Tick := Tick(20_000, true, 101.0, 0.25, 1, 0, false)

  /** Trading stops four seconds before the first quote. */
  const EARLY: Log := Log([FIRST_TRADE, SECOND_TRADE], [ONLY_QUOTE])
  const LATER: Log := Log([LATE_TRADE], [])

  lemma SpansOfExample()
    ensures Populated(EARLY) && Opening(EARLY) == 20 * SECOND && Closing(EARLY) == 16 * SECOND
    ensures Overlap(EARLY) == None
    ensures Overlap(Extend(EARLY, LATER)) == Some(Span(20 * SECOND, 20 * SECOND))
  {
    assert TradeTimes(EARLY.cme) == [5 * SECOND, 16 * SECOND];
    assert TickTimes(EARLY.mt5) == [20 * SECOND];
    var x := Extend(EARLY, LATER);
    assert x.cme == [FIRST_TRADE, SECOND_TRADE, LATE_TRADE] && x.mt5 == [ONLY_QUOTE];
    var s := TradeTimes(x.cme);
    assert s == [5 * SECOND, 16 * SECOND, 35 * SECOND];
    assert s[0] in s && s[2] in s;
    assert TickTimes(x.mt5) == [20 * SECOND];
    assert Opening(x) == 20 * SECOND && Closing(x) == 20 * SECOND;
  }

  lemma KeysOfExample()
    ensures JoinKeys(EARLY, 15 * SECOND) == {0, 15 * SECOND} == FrameKeys(EARLY, 15 * SECOND)
    ensures FrameKeys(Extend(EARLY, LATER), 15 * SECOND) == {15 * SECOND}
    ensures CoPresent(EARLY, 15 * SECOND, 15 * SECOND)
  {
    var w := 15 * SECOND;
    SpansOfExample();
    EarlyKeys();
    LaterKeys();
    assert FrameKeys(EARLY, w) == JoinKeys(EARLY, w);
    assert FrameKeys(Extend(EARLY, LATER), w) == {w};
  }

  lemma EarlyKeys()
    ensures CmeKeys(EARLY.cme, 15 * SECOND) == {0, 15 * SECOND} && Mt5Keys(EARLY.mt5, 15 * SECOND) == {15 * SECOND}
  {
    assert FIRST_TRADE in EARLY.cme && SECOND_TRADE in EARLY.cme && ONLY_QUOTE in EARLY.mt5;
  }

  lemma KeysOfThree(a: Trade, b: Trade, c: Trade, q: Tick, w: int)
    requires w > 0 && a.valid && b.valid && c.valid
    ensures JoinKeys(Log([a, b, c], [q]), w) == {Bucket(a.timeNs, w), Bucket(b.timeNs, w), Bucket(c.timeNs, w), Bucket(TickNs(q), w)}
  {
    var trades, ticks := [a, b, c], [q];
    assert trades[0] in trades && trades[1] in trades && trades[2] in trades && ticks[0] in ticks;
    assert CmeKeys(trades, w) == {Bucket(a.timeNs, w), Bucket(b.timeNs, w), Bucket(c.timeNs, w)};
    assert Mt5Keys(ticks, w) == {Bucket(TickNs(q), w)};
  }

  lemma ExampleBuckets()
    ensures Bucket(FIRST_TRADE.timeNs, 15 * SECOND) == 0 && Bucket(SECOND_TRADE.timeNs, 15 * SECOND) == 15 * SECOND
    ensures Bucket(LATE_TRADE.timeNs, 15 * SECOND) == 30 * SECOND && Bucket(TickNs(ONLY_QUOTE), 15 * SECOND) == 15 * SECOND
  {
  }

  lemma LaterKeys()
    ensures JoinKeys(Extend(EARLY, LATER), 15 * SECOND) == {0, 15 * SECOND, 30 * SECOND}
  {
    ExampleBuckets();
    KeysOfThree(FIRST_TRADE, SECOND_TRADE, LATE_TRADE, ONLY_QUOTE, 15 * SECOND);
    ExtendedExample();
  }

  lemma ExtendedExample()
    ensures Extend(EARLY, LATER) == Log([FIRST_TRADE, SECOND_TRADE, LATE_TRADE], [ONLY_QUOTE])
  {
  }

  lemma AscendingPair(a: int, b: int)
    requires a < b
    ensures AscendingOf({a, b}) == [a, b] && AscendingOf({a}) == [a]
  {
    AscendingUnique(AscendingOf({a, b}), [a, b]);
    AscendingUnique(AscendingOf({a}), [a]);
  }

  lemma QuoteRow(lib: Library)
    ensures Eligible(BaseRowAt(EARLY, 15 * SECOND, 15 * SECOND, lib), DEFAULTS, "15s")
  {
    var w, q := 15 * SECOND, ONLY_QUOTE;
    KeysOfExample();
    assert Bucket(TickNs(q), w) == w;
    assert [q][1..] == [];
    assert SortBy([q], TickLeq) == [q];
    assert Filter([q], TickIn(w, w)) == [q];
    assert IsJoinSafe(q) && Filter([q], IsJoinSafe) == [q];
    EligibleExactly(EARLY, w, w, lib, DEFAULTS, "15s");
  }

  function Solo(log: Log): seq<Source> { [Source("ES_SPX500", log)] }

  lemma SoloRows(log: Log, lib: Library)
    ensures BuildRows(Solo(log), [QUARTER_MINUTE], DEFAULTS, lib) == Partition(Solo(log)[0], QUARTER_MINUTE, DEFAULTS, lib)
  {
    var s, b := Solo(log), [QUARTER_MINUTE];
    assert s[1..] == [] && b[1..] == [];
    assert PairRows(s[0], b, DEFAULTS, lib) == Partition(s[0], b[0], DEFAULTS, lib) + [];
  }

  lemma EarlyFrame(lib: Library)
    ensures var w := 15 * SECOND;
            Frame(EARLY, w, lib) == [BaseRowAt(EARLY, w, 0, lib), BaseRowAt(EARLY, w, w, lib)]
  {
    var w := 15 * SECOND;
    KeysOfExample();
    AscendingPair(0, w);
    TwoRows(EARLY, w, 0, w, lib);
  }

  lemma TwoRows(log: Log, w: int, a: int, b: int, lib: Library)
    ensures RowsAt(log, w, [a, b], lib) == [BaseRowAt(log, w, a, lib), BaseRowAt(log, w, b, lib)]
  {
  }

  lemma CloseKnown(log: Log, w: int, b: int, lib: Library)
    requires w > 0 && ValidMeansPositive(log.cme) && b in CmeKeys(log.cme, w)
    ensures CmeClose(BaseRowAt(log, w, b, lib)).Some? && CmeClose(BaseRowAt(log, w, b, lib)).value > 0.0
  {
    BarsHoldEvents(log, w, b, lib);
  }

  lemma ReturnKnown(frame: seq<BaseRow>, f: BaseRow -> Option<real>)
    requires |frame| == 2 && f(frame[0]).Some? && f(frame[0]).value > 0.0 && f(frame[1]).Some?
    ensures Return(frame, 1, f).Number?
  {
  }

  lemma EarlyReturn(lib: Library)
    ensures |Frame(EARLY, 15 * SECOND, lib)| == 2 && Return(Frame(EARLY, 15 * SECOND, lib), 1, CmeClose).Number?
  {
    var w := 15 * SECOND;
    KeysOfExample();
    assert 0 in CmeKeys(EARLY.cme, w) by { assert Bucket(FIRST_TRADE.timeNs, w) == 0 && FIRST_TRADE in EARLY.cme; }
    CloseKnown(EARLY, w, 0, lib);
    CloseKnown(EARLY, w, w, lib);
    EarlyFrame(lib);
    ReturnKnown(Frame(EARLY, w, lib), CmeClose);
  }

  lemma EarlyRow(lib: Library)
    ensures var p := Partition(Solo(EARLY)[0], QUARTER_MINUTE, DEFAULTS, lib);
            |p| == 2 && Selectable(p[1], 30 * SECOND) && p[1].row.cme.returnClose.Number?
  {
    EarlyFrame(lib);
    EarlyReturn(lib);
    QuoteRow(lib);
    RowOfPartition(Solo(EARLY)[0], QUARTER_MINUTE, DEFAULTS, lib, 1);
  }

  lemma LateRow(lib: Library)
    ensures var p := Partition(Solo(Extend(EARLY, LATER))[0], QUARTER_MINUTE, DEFAULTS, lib);
            |p| == 1 && p[0].row.cme.returnClose.Null?
  {
    KeysOfExample();
    AscendingPair(15 * SECOND, 16 * SECOND);
    RowOfPartition(Solo(Extend(EARLY, LATER))[0], QUARTER_MINUTE, DEFAULTS, lib, 0);
  }

  /** The example is unsettled and meets every other condition of the theorem. */
  lemma ExampleIsUnsettled()
    ensures Late(LATER, 30 * SECOND) && PositiveQuotes(EARLY) && ValidMeansPositive(EARLY.cme) && !Settled(EARLY, 15 * SECOND)
  {
    SpansOfExample();
    KeysOfExample();
    assert 0 in JoinKeys(EARLY, 15 * SECOND);
  }

  lemma SoloExport(log: Log, lib: Library)
    ensures forall r :: r in ExportRows(Solo(log), [QUARTER_MINUTE], DEFAULTS, lib, 30 * SECOND) <==>
      r in Partition(Solo(log)[0], QUARTER_MINUTE, DEFAULTS, lib) && Selectable(r, 30 * SECOND)
  {
    SoloRows(log, lib);
    ExportMembers(Solo(log), [QUARTER_MINUTE], DEFAULTS, lib, 30 * SECOND);
  }

  function ExportOf(log: Log, lib: Library): seq<ExportRow> {
    ExportRows(Solo(log), [QUARTER_MINUTE], DEFAULTS, lib, 30 * SECOND)
  }

  lemma EarlyExport(lib: Library)
    ensures exists r :: r in ExportOf(EARLY, lib) && r.row.cme.returnClose.Number?
  {
    SoloExport(EARLY, lib);
    EarlyRow(lib);
    var r := Partition(Solo(EARLY)[0], QUARTER_MINUTE, DEFAULTS, lib)[1];
    assert r in ExportOf(EARLY, lib);
  }

  lemma LateExport(lib: Library)
    ensures forall r :: r in ExportOf(Extend(EARLY, LATER), lib) ==> r.row.cme.returnClose.Null?
  {
    SoloExport(Extend(EARLY, LATER), lib);
    LateRow(lib);
  }

  /**
   * Without an overlap the clip is off and a later event can reach back. Trades at 5 s and 16 s, a
   * quote at 20 s: the exported 15 s row has a return over the bucket before it. One more trade at
   * 35 s, after the 30 s watermark, switches the clip on, drops that bucket and nulls the return.
   */
  lemma ClipOffLooksAhead(lib: Library)
    ensures exists r :: r in ExportOf(EARLY, lib) && r.row.cme.returnClose.Number?
    ensures forall r :: r in ExportOf(Extend(EARLY, LATER), lib) ==> r.row.cme.returnClose.Null?
  {
    EarlyExport(lib);
    LateExport(lib);
  }
}
