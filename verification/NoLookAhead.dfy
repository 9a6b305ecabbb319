/** Later events leave the exported rows of every guarded partition unchanged. */
module NoLookAhead {
  import opened Sequences
  import opened BarAggregation
  import opened BarFeatures
  import opened FeatureExport

  function TradeBefore(w: int): Trade -> bool { (t: Trade) => t.timeNs < w }
  function TickBefore(w: int): Tick -> bool { (t: Tick) => TickNs(t) < w }

  /** The two logs hold the same events, in the same order, before the watermark. */
  predicate AgreeBefore(a: Log, b: Log, watermark: int) {
    && Filter(a.cme, TradeBefore(watermark)) == Filter(b.cme, TradeBefore(watermark))
    && Filter(a.mt5, TickBefore(watermark)) == Filter(b.mt5, TickBefore(watermark))
  }

  predicate PositiveQuotes(log: Log) { forall t :: t in log.mt5 ==> t.timeMs > 0 }

  /**
   * What a caller can check: the two sources overlap, or no bucket of the join ends by the time both
   * have begun. Without an overlap the clip is off.
   */
  predicate Settled(log: Log, w: int)
    requires w > 0
  {
    Populated(log) ==> Opening(log) <= Closing(log) || forall k :: k in JoinKeys(log, w) ==> k + w > Opening(log)
  }

  predicate CoPresent(log: Log, w: int, b: int)
    requires w > 0
  {
    b in CmeKeys(log.cme, w) && b in Mt5Keys(log.mt5, w)
  }

  // ----- closed buckets do not depend on later events

  function ValidIn(w: int, k: int): Trade -> bool { (t: Trade) => t.valid && w > 0 && Bucket(t.timeNs, w) == k }

  lemma ArrivalFromPast(trades: seq<Trade>, watermark: int, w: int, k: int)
    requires w > 0 && k + w <= watermark
    ensures ArrivalGroup(trades, w, k) == Filter(Filter(trades, TradeBefore(watermark)), ValidIn(w, k))
  {
    forall t: Trade ensures ValidIn(w, k)(t) ==> TradeBefore(watermark)(t) { BucketBounds(t.timeNs, w); }
    FilterTwice(trades, TradeBefore(watermark), ValidIn(w, k));
    FilterTwice(trades, IsValid, ValidIn(w, k));
    FilterMembers(trades, IsValid);
    FilterEqual(Filter(trades, IsValid), TradeIn(w, k), ValidIn(w, k));
  }

  lemma TicksFromPast(ticks: seq<Tick>, watermark: int, w: int, k: int)
    requires w > 0 && k + w <= watermark
    ensures TickGroup(ticks, w, k) == SortBy(Filter(Filter(ticks, TickBefore(watermark)), TickIn(w, k)), TickLeq)
  {
    forall t: Tick ensures TickIn(w, k)(t) ==> TickBefore(watermark)(t) { BucketBounds(TickNs(t), w); }
    FilterTwice(ticks, TickBefore(watermark), TickIn(w, k));
    FilterSort(ticks, TickLeq, TickIn(w, k));
  }

  /** The base row of a closed bucket is a function of the events before the watermark. */
  lemma ClosedRowsAgree(a: Log, b: Log, watermark: int, w: int, k: int, lib: Library)
    requires w > 0 && k + w <= watermark && AgreeBefore(a, b, watermark)
    ensures BaseRowAt(a, w, k, lib) == BaseRowAt(b, w, k, lib)
    ensures k in CmeKeys(a.cme, w) <==> k in CmeKeys(b.cme, w)
    ensures k in Mt5Keys(a.mt5, w) <==> k in Mt5Keys(b.mt5, w)
  {
    ArrivalFromPast(a.cme, watermark, w, k);
    ArrivalFromPast(b.cme, watermark, w, k);
    FilterSort(Filter(a.cme, IsValid), TradeLeq, TradeIn(w, k));
    FilterSort(Filter(b.cme, IsValid), TradeLeq, TradeIn(w, k));
    assert TradeGroup(a.cme, w, k) == TradeGroup(b.cme, w, k);
    TicksFromPast(a.mt5, watermark, w, k);
    TicksFromPast(b.mt5, watermark, w, k);
    assert TickGroup(a.mt5, w, k) == TickGroup(b.mt5, w, k);
    CmeKeysExact(a.cme, w, k);
    CmeKeysExact(b.cme, w, k);
    Mt5KeysExact(a.mt5, w, k);
    Mt5KeysExact(b.mt5, w, k);
  }

  // ----- the clip

  lemma TradeTimesExact(trades: seq<Trade>)
    ensures forall x :: x in TradeTimes(trades) <==> exists t :: t in trades && t.timeNs == x
  {
    var s := TradeTimes(trades);
    forall x | x in s ensures exists t :: t in trades && t.timeNs == x {
      var i :| 0 <= i < |s| && s[i] == x;
      assert trades[i] in trades;
    }
    forall t | t in trades ensures t.timeNs in s {
      var i :| 0 <= i < |trades| && trades[i] == t;
      assert s[i] == t.timeNs;
    }
  }

  lemma TickTimesExact(ticks: seq<Tick>)
    ensures forall x :: x in TickTimes(ticks) <==> exists t :: t in ticks && TickNs(t) == x
  {
    var s := TickTimes(ticks);
    forall x | x in s ensures exists t :: t in ticks && TickNs(t) == x {
      var i :| 0 <= i < |s| && s[i] == x;
      assert ticks[i] in ticks;
    }
    forall t | t in ticks ensures TickNs(t) in s {
      var i :| 0 <= i < |ticks| && ticks[i] == t;
      assert s[i] == TickNs(t);
    }
  }

  lemma EarliestAgrees(s: seq<int>, t: seq<int>, watermark: int)
    requires s != [] && t != []
    requires forall x :: x < watermark ==> (x in s <==> x in t)
    requires exists x :: x in s && x < watermark
    ensures Earliest(s) == Earliest(t)
  {
  }

  /** A bucket with events of both sources pins the opening from above and the closing from below. */
  lemma CoPresentPins(log: Log, w: int, b: int)
    requires w > 0 && CoPresent(log, w, b)
    ensures Populated(log) && b <= Closing(log) && Opening(log) < b + w
  {
    var t :| t in log.cme && t.valid && Bucket(t.timeNs, w) == b;
    var q :| q in log.mt5 && Bucket(TickNs(q), w) == b;
    BucketBounds(t.timeNs, w);
    BucketBounds(TickNs(q), w);
    TradeTimesExact(log.cme);
    TickTimesExact(log.mt5);
    assert t.timeNs in TradeTimes(log.cme) && TickNs(q) in TickTimes(log.mt5);
  }

  lemma PastTradeTimes(a: seq<Trade>, b: seq<Trade>, watermark: int, x: int)
    requires Filter(a, TradeBefore(watermark)) == Filter(b, TradeBefore(watermark)) && x < watermark && x in TradeTimes(a)
    ensures x in TradeTimes(b)
  {
    TradeTimesExact(a);
    TradeTimesExact(b);
    FilterMembers(a, TradeBefore(watermark));
    FilterMembers(b, TradeBefore(watermark));
    var t :| t in a && t.timeNs == x;
    assert t in Filter(b, TradeBefore(watermark));
  }

  lemma PastTickTimes(a: seq<Tick>, b: seq<Tick>, watermark: int, x: int)
    requires Filter(a, TickBefore(watermark)) == Filter(b, TickBefore(watermark)) && x < watermark && x in TickTimes(a)
    ensures x in TickTimes(b)
  {
    TickTimesExact(a);
    TickTimesExact(b);
    FilterMembers(a, TickBefore(watermark));
    FilterMembers(b, TickBefore(watermark));
    var t :| t in a && TickNs(t) == x;
    assert t in Filter(b, TickBefore(watermark));
  }

  /** Once a closed bucket holds both sources, later events cannot move the opening. */
  lemma OpeningIsPinned(a: Log, b: Log, watermark: int, w: int, k: int)
    requires w > 0 && k + w <= watermark && AgreeBefore(a, b, watermark) && CoPresent(a, w, k) && CoPresent(b, w, k)
    ensures Populated(a) && Populated(b) && Opening(a) == Opening(b)
  {
    CoPresentPins(a, w, k);
    CoPresentPins(b, w, k);
    forall x | x < watermark ensures x in TradeTimes(a.cme) <==> x in TradeTimes(b.cme) {
      if x in TradeTimes(a.cme) { PastTradeTimes(a.cme, b.cme, watermark, x); }
      if x in TradeTimes(b.cme) { PastTradeTimes(b.cme, a.cme, watermark, x); }
    }
    forall x | x < watermark ensures x in TickTimes(a.mt5) <==> x in TickTimes(b.mt5) {
      if x in TickTimes(a.mt5) { PastTickTimes(a.mt5, b.mt5, watermark, x); }
      if x in TickTimes(b.mt5) { PastTickTimes(b.mt5, a.mt5, watermark, x); }
    }
    EarliestAgrees(TradeTimes(a.cme), TradeTimes(b.cme), watermark);
    EarliestAgrees(TickTimes(a.mt5), TickTimes(b.mt5), watermark);
  }

  lemma OverlapWhenPositive(log: Log)
    requires PositiveQuotes(log) && Populated(log)
    ensures Overlap(log) == if Opening(log) <= Closing(log) then Some(Span(Opening(log), Closing(log))) else None
  {
    TickTimesExact(log.mt5);
    var s := TickTimes(log.mt5);
    assert Earliest(s) in s && Latest(s) in s;
  }

  /** Up to a co-present bucket the clip of a settled log keeps exactly the buckets that end after the opening. */
  lemma KeptExactly(log: Log, w: int, b: int, k: int)
    requires w > 0 && CoPresent(log, w, b) && Settled(log, w) && PositiveQuotes(log) && k <= b && k in JoinKeys(log, w)
    ensures Populated(log) && (k in FrameKeys(log, w) <==> k + w > Opening(log))
  {
    CoPresentPins(log, w, b);
    OverlapWhenPositive(log);
  }

  ghost predicate SameKeysUpTo(a: Log, b: Log, w: int, top: int)
    requires w > 0
  {
    forall k :: k <= top ==> (k in FrameKeys(a, w) <==> k in FrameKeys(b, w))
  }

  lemma SettledPrefixesAgree(a: Log, b: Log, watermark: int, w: int, top: int, lib: Library)
    requires w > 0 && top + w <= watermark && AgreeBefore(a, b, watermark) && CoPresent(a, w, top)
    requires Settled(a, w) && Settled(b, w) && PositiveQuotes(a) && PositiveQuotes(b)
    ensures CoPresent(b, w, top) && SameKeysUpTo(a, b, w, top) && top in FrameKeys(a, w)
  {
    ClosedRowsAgree(a, b, watermark, w, top, lib);
    OpeningIsPinned(a, b, watermark, w, top);
    CoPresentPins(a, w, top);
    forall k | k <= top ensures k in FrameKeys(a, w) <==> k in FrameKeys(b, w) {
      ClosedRowsAgree(a, b, watermark, w, k, lib);
      if k in JoinKeys(a, w) {
        KeptExactly(a, w, top, k);
        KeptExactly(b, w, top, k);
      }
    }
    KeptExactly(a, w, top, top);
  }

  // ----- from keys to tables

  function UpTo(keys: set<int>, top: int): set<int> { set k | k in keys && k <= top }
  function Above(keys: set<int>, top: int): set<int> { set k | k in keys && k > top }

  lemma AscendingSplits(keys: set<int>, top: int)
    ensures AscendingOf(keys) == AscendingOf(UpTo(keys, top)) + AscendingOf(Above(keys, top))
  {
    var low, high := AscendingOf(UpTo(keys, top)), AscendingOf(Above(keys, top));
    assert forall i :: 0 <= i < |low| ==> low[i] in low;
    assert forall i :: 0 <= i < |high| ==> high[i] in high;
    AscendingUnique(AscendingOf(keys), low + high);
  }

  lemma TablePrefix(a: Log, b: Log, bucket: BucketSize, c: Config, lib: Library, n: nat)
    requires bucket.ns > 0 && n <= |Frame(a, bucket.ns, lib)| && n <= |Frame(b, bucket.ns, lib)|
    requires Frame(a, bucket.ns, lib)[..n] == Frame(b, bucket.ns, lib)[..n]
    ensures Table(a, bucket, c, lib)[..n] == Table(b, bucket, c, lib)[..n]
  {
    forall i | 0 <= i < n ensures Table(a, bucket, c, lib)[i] == Table(b, bucket, c, lib)[i] {
      SameHistory(Frame(a, bucket.ns, lib), Frame(b, bucket.ns, lib), n, i, bucket, c, lib);
    }
  }

  lemma SameHistory(fa: seq<BaseRow>, fb: seq<BaseRow>, n: nat, i: nat, bucket: BucketSize, c: Config, lib: Library)
    requires i < n <= |fa| && n <= |fb| && fa[..n] == fb[..n]
    ensures FeatureRowAt(fa, i, bucket, c, lib) == FeatureRowAt(fb, i, bucket, c, lib)
  {
    assert fa[..i + 1] == fa[..n][..i + 1] && fb[..i + 1] == fb[..n][..i + 1];
    FeaturesAreCausal(fa, fb, i, bucket, c, lib);
  }

  lemma RowsPrefix(a: Log, b: Log, w: int, ka: seq<int>, kb: seq<int>, low: seq<int>, lib: Library)
    requires low <= ka && low <= kb
    requires forall i :: 0 <= i < |low| ==> BaseRowAt(a, w, low[i], lib) == BaseRowAt(b, w, low[i], lib)
    ensures RowsAt(a, w, ka, lib)[..|low|] == RowsAt(b, w, kb, lib)[..|low|]
  {
    forall i | 0 <= i < |low| ensures RowsAt(a, w, ka, lib)[i] == RowsAt(b, w, kb, lib)[i] {
      assert ka[i] == low[i] && kb[i] == low[i];
    }
  }

  /** The starts of a frame from row n on lie above a bucket. */
  ghost predicate TailAbove(log: Log, w: int, lib: Library, n: nat, top: int)
    requires w > 0
  {
    forall i :: n <= i < |Frame(log, w, lib)| ==> Frame(log, w, lib)[i].start > top
  }

  lemma FramePrefix(a: Log, b: Log, watermark: int, w: int, top: int, lib: Library)
    requires w > 0 && top + w <= watermark && AgreeBefore(a, b, watermark) && SameKeysUpTo(a, b, w, top)
    ensures var n := |AscendingOf(UpTo(FrameKeys(a, w), top))|;
            && n <= |Frame(a, w, lib)| && n <= |Frame(b, w, lib)| && Frame(a, w, lib)[..n] == Frame(b, w, lib)[..n]
            && TailAbove(a, w, lib, n, top) && TailAbove(b, w, lib, n, top)
  {
    var ka, kb := FrameKeys(a, w), FrameKeys(b, w);
    assert UpTo(ka, top) == UpTo(kb, top);
    RestIsAbove(ka, top);
    RestIsAbove(kb, top);
    var low := AscendingOf(UpTo(ka, top));
    forall i | 0 <= i < |low| ensures BaseRowAt(a, w, low[i], lib) == BaseRowAt(b, w, low[i], lib) {
      assert low[i] in UpTo(ka, top);
      ClosedRowsAgree(a, b, watermark, w, low[i], lib);
    }
    RowsPrefix(a, b, w, AscendingOf(ka), AscendingOf(kb), low, lib);
  }

  lemma TailOfSplit(all: seq<int>, low: seq<int>, high: seq<int>, top: int)
    requires all == low + high && forall k :: k in high ==> k > top
    ensures low <= all && forall i :: |low| <= i < |all| ==> all[i] > top
  {
    forall i | |low| <= i < |all| ensures all[i] > top {
      assert all[i] == high[i - |low|];
      assert high[i - |low|] in high;
    }
  }

  lemma RestIsAbove(keys: set<int>, top: int)
    ensures AscendingOf(UpTo(keys, top)) <= AscendingOf(keys)
    ensures forall i :: |AscendingOf(UpTo(keys, top))| <= i < |AscendingOf(keys)| ==> AscendingOf(keys)[i] > top
  {
    AscendingSplits(keys, top);
    var high := AscendingOf(Above(keys, top));
    assert forall k :: k in high ==> k in Above(keys, top);
    TailOfSplit(AscendingOf(keys), AscendingOf(UpTo(keys, top)), high, top);
  }

  // ----- the exported rows of one partition

  function ChosenKeys(log: Log, bucket: BucketSize, c: Config, lib: Library, watermark: int): set<int>
    requires bucket.ns > 0
  {
    set k | k in FrameKeys(log, bucket.ns) && k + bucket.ns <= watermark && Eligible(BaseRowAt(log, bucket.ns, k, lib), c, bucket.name)
  }

  lemma SelectableIsChosen(source: Source, bucket: BucketSize, c: Config, lib: Library, watermark: int, i: nat)
    requires bucket.ns > 0 && i < |Partition(source, bucket, c, lib)|
    requires Selectable(Partition(source, bucket, c, lib)[i], watermark)
    ensures Frame(source.log, bucket.ns, lib)[i].start in ChosenKeys(source.log, bucket, c, lib, watermark)
  {
    var keys := AscendingOf(FrameKeys(source.log, bucket.ns));
    assert keys[i] in FrameKeys(source.log, bucket.ns);
  }

  /** Positive quote times and valid trades, as ingestion leaves them. */
  ghost predicate Ingested(log: Log) { PositiveQuotes(log) && ValidMeansPositive(log.cme) }

  ghost predicate SafePair(a: Log, b: Log, w: int, watermark: int)
    requires w > 0
  {
    && AgreeBefore(a, b, watermark)
    && Settled(a, w) && Settled(b, w) && Ingested(a) && Ingested(b)
  }

  lemma ChosenKeysAgree(a: Log, b: Log, bucket: BucketSize, c: Config, lib: Library, watermark: int, k: int)
    requires bucket.ns > 0 && SafePair(a, b, bucket.ns, watermark)
    requires k in ChosenKeys(a, bucket, c, lib, watermark)
    ensures k in ChosenKeys(b, bucket, c, lib, watermark) && SameKeysUpTo(a, b, bucket.ns, k)
  {
    EligibleExactly(a, bucket.ns, k, lib, c, bucket.name);
    SettledPrefixesAgree(a, b, watermark, bucket.ns, k, lib);
    ClosedRowsAgree(a, b, watermark, bucket.ns, k, lib);
  }

  lemma {:induction false} FilterDropsTail<T>(s: seq<T>, n: nat, p: T -> bool)
    requires n <= |s| && forall i :: n <= i < |s| ==> !p(s[i])
    ensures Filter(s, p) == Filter(s[..n], p)
  {
    assert s == s[..n] + s[n..];
    FilterAppend(s[..n], s[n..], p);
    FilterNone(s[n..], p);
  }

  lemma PartitionPrefix(a: Source, b: Source, bucket: BucketSize, c: Config, lib: Library, n: nat)
    requires bucket.ns > 0 && a.pair == b.pair
    requires n <= |Frame(a.log, bucket.ns, lib)| && n <= |Frame(b.log, bucket.ns, lib)|
    requires Frame(a.log, bucket.ns, lib)[..n] == Frame(b.log, bucket.ns, lib)[..n]
    ensures Partition(a, bucket, c, lib)[..n] == Partition(b, bucket, c, lib)[..n]
  {
    TablePrefix(a.log, b.log, bucket, c, lib, n);
    PartitionOfTable(a, bucket, c, lib);
    PartitionOfTable(b, bucket, c, lib);
    SamePrefix(Table(a.log, bucket, c, lib), Table(b.log, bucket, c, lib), Partition(a, bucket, c, lib), Partition(b, bucket, c, lib),
               a.pair, bucket.name, n);
  }

  /** The rows of a partition are those of the table, labelled. */
  ghost predicate Labels(table: seq<FeatureRow>, rows: seq<ExportRow>, pair: string, size: string) {
    |rows| == |table| && forall i :: 0 <= i < |table| ==> rows[i] == ExportRow(pair, size, table[i])
  }

  lemma PartitionOfTable(source: Source, bucket: BucketSize, c: Config, lib: Library)
    requires bucket.ns > 0
    ensures Labels(Table(source.log, bucket, c, lib), Partition(source, bucket, c, lib), source.pair, bucket.name)
  {
  }

  lemma SamePrefix(s: seq<FeatureRow>, t: seq<FeatureRow>, p: seq<ExportRow>, q: seq<ExportRow>, pair: string, size: string, n: nat)
    requires Labels(s, p, pair, size) && Labels(t, q, pair, size) && n <= |s| && n <= |t| && s[..n] == t[..n]
    ensures p[..n] == q[..n]
  {
    forall i | 0 <= i < n ensures p[i] == q[i] { assert s[i] == s[..n][i] && t[i] == t[..n][i]; }
  }

  lemma TailUnselected(source: Source, bucket: BucketSize, c: Config, lib: Library, watermark: int, n: nat, top: int)
    requires bucket.ns > 0 && n <= |Partition(source, bucket, c, lib)|
    requires TailAbove(source.log, bucket.ns, lib, n, top)
    requires forall k :: k in ChosenKeys(source.log, bucket, c, lib, watermark) ==> k <= top
    ensures Filter(Partition(source, bucket, c, lib), SelectedBy(watermark))
         == Filter(Partition(source, bucket, c, lib)[..n], SelectedBy(watermark))
  {
    var p := Partition(source, bucket, c, lib);
    forall i | n <= i < |p| ensures !SelectedBy(watermark)(p[i]) {
      if Selectable(p[i], watermark) {
        SelectableIsChosen(source, bucket, c, lib, watermark, i);
        assert false;
      }
    }
    FilterDropsTail(p, n, SelectedBy(watermark));
  }

  lemma Greatest(keys: set<int>) returns (top: int)
    requires keys != {}
    ensures top in keys && forall k :: k in keys ==> k <= top
  {
    var s := AscendingOf(keys);
    var k := Member(keys);
    assert k in s;
    top := s[|s| - 1];
    assert top in s;
  }

  /** Two settled logs that agree before the watermark export the same rows of every bucket size. */
  lemma PartitionStable(a: Source, b: Source, bucket: BucketSize, c: Config, lib: Library, watermark: int)
    requires bucket.ns > 0 && a.pair == b.pair && SafePair(a.log, b.log, bucket.ns, watermark)
    ensures Filter(Partition(a, bucket, c, lib), SelectedBy(watermark)) == Filter(Partition(b, bucket, c, lib), SelectedBy(watermark))
  {
    var ca, cb := ChosenKeys(a.log, bucket, c, lib, watermark), ChosenKeys(b.log, bucket, c, lib, watermark);
    forall k ensures k in ca <==> k in cb {
      if k in ca { ChosenKeysAgree(a.log, b.log, bucket, c, lib, watermark, k); }
      if k in cb { ChosenKeysAgree(b.log, a.log, bucket, c, lib, watermark, k); }
    }
    if ca == {} {
      NothingChosen(a, bucket, c, lib, watermark);
      NothingChosen(b, bucket, c, lib, watermark);
    } else {
      var top := Greatest(ca);
      ChosenKeysAgree(a.log, b.log, bucket, c, lib, watermark, top);
      FramePrefix(a.log, b.log, watermark, bucket.ns, top, lib);
      var n := |AscendingOf(UpTo(FrameKeys(a.log, bucket.ns), top))|;
      PartitionPrefix(a, b, bucket, c, lib, n);
      TailUnselected(a, bucket, c, lib, watermark, n, top);
      TailUnselected(b, bucket, c, lib, watermark, n, top);
    }
  }

  lemma NothingChosen(source: Source, bucket: BucketSize, c: Config, lib: Library, watermark: int)
    requires bucket.ns > 0 && ChosenKeys(source.log, bucket, c, lib, watermark) == {}
    ensures Filter(Partition(source, bucket, c, lib), SelectedBy(watermark)) == []
  {
    var p := Partition(source, bucket, c, lib);
    forall i | 0 <= i < |p| ensures !SelectedBy(watermark)(p[i]) {
      if Selectable(p[i], watermark) {
        SelectableIsChosen(source, bucket, c, lib, watermark, i);
        assert false;
      }
    }
    FilterDropsTail(p, 0, SelectedBy(watermark));
  }

  // ----- later events

  ghost predicate Late(later: Log, watermark: int) {
    && (forall t :: t in later.cme ==> t.timeNs >= watermark)
    && (forall t :: t in later.mt5 ==> TickNs(t) >= watermark)
    && PositiveQuotes(later) && ValidMeansPositive(later.cme)
  }

  function Extend(log: Log, later: Log): Log { Log(log.cme + later.cme, log.mt5 + later.mt5) }

  lemma ExtensionAgrees(log: Log, later: Log, watermark: int)
    requires Late(later, watermark)
    ensures AgreeBefore(log, Extend(log, later), watermark)
  {
    FilterAppend(log.cme, later.cme, TradeBefore(watermark));
    FilterNone(later.cme, TradeBefore(watermark));
    FilterAppend(log.mt5, later.mt5, TickBefore(watermark));
    FilterNone(later.mt5, TickBefore(watermark));
  }

  lemma ExtremesOfAppend(a: seq<int>, b: seq<int>)
    requires a != []
    ensures Latest(a) <= Latest(a + b)
    ensures (forall x :: x in b ==> x >= Earliest(a)) ==> Earliest(a + b) == Earliest(a)
  {
    assert Latest(a) in a + b && Earliest(a) in a + b;
    assert Earliest(a + b) in a || Earliest(a + b) in b;
  }

  lemma TimesAppend(log: Log, later: Log)
    ensures TradeTimes(log.cme + later.cme) == TradeTimes(log.cme) + TradeTimes(later.cme)
    ensures TickTimes(log.mt5 + later.mt5) == TickTimes(log.mt5) + TickTimes(later.mt5)
  {
  }

  lemma ExtensionIsIngested(log: Log, later: Log, watermark: int)
    requires Ingested(log) && Late(later, watermark)
    ensures Ingested(Extend(log, later))
  {
  }

  lemma ClosingGrows(log: Log, later: Log)
    requires Populated(log)
    ensures Closing(log) <= Closing(Extend(log, later))
  {
    TimesAppend(log, later);
    ExtremesOfAppend(TradeTimes(log.cme), TradeTimes(later.cme));
    ExtremesOfAppend(TickTimes(log.mt5), TickTimes(later.mt5));
  }

  lemma NewKeysAreLate(log: Log, later: Log, watermark: int, w: int, k: int)
    requires w > 0 && Late(later, watermark) && k in JoinKeys(Extend(log, later), w)
    ensures k in JoinKeys(log, w) || k + w > watermark
  {
    if k in CmeKeys(log.cme + later.cme, w) {
      var t :| t in log.cme + later.cme && t.valid && Bucket(t.timeNs, w) == k;
      BucketBounds(t.timeNs, w);
    } else {
      var q :| q in log.mt5 + later.mt5 && Bucket(TickNs(q), w) == k;
      BucketBounds(TickNs(q), w);
    }
  }

  lemma ExtensionStaysSettled(log: Log, later: Log, watermark: int, w: int, top: int, lib: Library)
    requires w > 0 && Late(later, watermark) && Settled(log, w) && CoPresent(log, w, top) && top + w <= watermark
    ensures Settled(Extend(log, later), w)
  {
    var x := Extend(log, later);
    ExtensionAgrees(log, later, watermark);
    ClosedRowsAgree(log, x, watermark, w, top, lib);
    OpeningIsPinned(log, x, watermark, w, top);
    CoPresentPins(log, w, top);
    ClosingGrows(log, later);
    if Opening(x) > Closing(x) {
      forall k | k in JoinKeys(x, w) ensures k + w > Opening(x) { NewKeysAreLate(log, later, watermark, w, k); }
    }
  }

  /** A closed bucket with both sources is never clipped away. */
  lemma CoPresentIsKept(log: Log, w: int, k: int)
    requires w > 0 && CoPresent(log, w, k)
    ensures k in FrameKeys(log, w)
  {
    CoPresentPins(log, w, k);
  }

  /** A bucket that is exported after the extension was exported before it. */
  lemma NothingNewIsChosen(log: Log, later: Log, bucket: BucketSize, c: Config, lib: Library, watermark: int, k: int)
    requires bucket.ns > 0 && Late(later, watermark) && ValidMeansPositive(log.cme)
    requires k in ChosenKeys(Extend(log, later), bucket, c, lib, watermark)
    ensures k in ChosenKeys(log, bucket, c, lib, watermark)
  {
    var w, x := bucket.ns, Extend(log, later);
    ExtensionAgrees(log, later, watermark);
    EligibleExactly(x, w, k, lib, c, bucket.name);
    ClosedRowsAgree(log, x, watermark, w, k, lib);
    CoPresentIsKept(log, w, k);
  }

  lemma ChosenIsSelectable(source: Source, bucket: BucketSize, c: Config, lib: Library, watermark: int, k: int) returns (i: nat)
    requires bucket.ns > 0 && bucket.name in EXPORTED_SIZES && k in ChosenKeys(source.log, bucket, c, lib, watermark)
    ensures i < |Partition(source, bucket, c, lib)| && Selectable(Partition(source, bucket, c, lib)[i], watermark)
    ensures Frame(source.log, bucket.ns, lib)[i].start == k
  {
    i := FrameIndex(source.log, bucket.ns, k, lib);
    PartitionRow(source, bucket, c, lib, i);
  }

  lemma FrameIndex(log: Log, w: int, k: int, lib: Library) returns (i: nat)
    requires w > 0 && k in FrameKeys(log, w)
    ensures i < |Frame(log, w, lib)| && Frame(log, w, lib)[i] == BaseRowAt(log, w, k, lib)
  {
    var keys := AscendingOf(FrameKeys(log, w));
    assert k in keys;
    i :| 0 <= i < |keys| && keys[i] == k;
  }

  lemma PartitionRow(source: Source, bucket: BucketSize, c: Config, lib: Library, i: nat)
    requires bucket.ns > 0 && i < |Frame(source.log, bucket.ns, lib)|
    ensures var frame, p := Frame(source.log, bucket.ns, lib), Partition(source, bucket, c, lib);
            && |p| == |frame|
            && p[i].row.start == frame[i].start && p[i].row.end == frame[i].start + bucket.ns
            && p[i].row.eligible == Eligible(frame[i], c, bucket.name)
            && p[i].size == bucket.name && p[i].pair == source.pair
  {
  }

  /** Nothing of this partition is exported. */
  ghost predicate NothingExported(source: Source, bucket: BucketSize, c: Config, lib: Library, watermark: int)
    requires bucket.ns > 0
  {
    Filter(Partition(source, bucket, c, lib), SelectedBy(watermark)) == []
  }

  lemma NothingExportedExactly(source: Source, bucket: BucketSize, c: Config, lib: Library, watermark: int)
    requires bucket.ns > 0 && bucket.name in EXPORTED_SIZES
    ensures NothingExported(source, bucket, c, lib, watermark) <==> ChosenKeys(source.log, bucket, c, lib, watermark) == {}
  {
    var p, chosen := Partition(source, bucket, c, lib), ChosenKeys(source.log, bucket, c, lib, watermark);
    FilterMembers(p, SelectedBy(watermark));
    if chosen == {} {
      NothingChosen(source, bucket, c, lib, watermark);
    } else {
      var k := Member(chosen);
      var i := ChosenIsSelectable(source, bucket, c, lib, watermark, k);
      assert p[i] in p;
      assert p[i] in Filter(p, SelectedBy(watermark));
    }
  }

  /** No closed bucket with trades and quotes passes the join-safe share and spread thresholds. */
  ghost predicate NothingReady(log: Log, w: int, c: Config, lib: Library, watermark: int)
    requires w > 0
  {
    forall k :: CoPresent(log, w, k) && k + w <= watermark ==> !PassesThresholds(BaseRowAt(log, w, k, lib), c)
  }

  lemma ChosenIsReady(log: Log, bucket: BucketSize, c: Config, lib: Library, watermark: int, k: int)
    requires bucket.ns > 0 && bucket.name in EXPORTED_SIZES && ValidMeansPositive(log.cme)
    ensures k in ChosenKeys(log, bucket, c, lib, watermark) <==>
            CoPresent(log, bucket.ns, k) && k + bucket.ns <= watermark && PassesThresholds(BaseRowAt(log, bucket.ns, k, lib), c)
  {
    EligibleExactly(log, bucket.ns, k, lib, c, bucket.name);
    if CoPresent(log, bucket.ns, k) { CoPresentIsKept(log, bucket.ns, k); }
  }

  /** The clip never removes a bucket with both sources, so nothing is exported exactly when no bucket is ready. */
  lemma NothingReadyExactly(source: Source, bucket: BucketSize, c: Config, lib: Library, watermark: int)
    requires bucket.ns > 0 && bucket.name in EXPORTED_SIZES && ValidMeansPositive(source.log.cme)
    ensures NothingReady(source.log, bucket.ns, c, lib, watermark) <==> NothingExported(source, bucket, c, lib, watermark)
  {
    var log, w, chosen := source.log, bucket.ns, ChosenKeys(source.log, bucket, c, lib, watermark);
    NothingExportedExactly(source, bucket, c, lib, watermark);
    if chosen != {} {
      var k := Member(chosen);
      ChosenIsReady(log, bucket, c, lib, watermark, k);
    }
    if k :| CoPresent(log, w, k) && k + w <= watermark && PassesThresholds(BaseRowAt(log, w, k, lib), c) {
      ChosenIsReady(log, bucket, c, lib, watermark, k);
    }
  }

  /** What protects one partition of an exported size: it is settled, or no bucket of it is ready for export. */
  ghost predicate Guarded(source: Source, bucket: BucketSize, c: Config, lib: Library, watermark: int)
    requires bucket.ns > 0
  {
    bucket.name in EXPORTED_SIZES ==> Settled(source.log, bucket.ns) || NothingReady(source.log, bucket.ns, c, lib, watermark)
  }

  lemma UnexportedSize(source: Source, bucket: BucketSize, c: Config, lib: Library, watermark: int)
    requires bucket.ns > 0 && bucket.name !in EXPORTED_SIZES
    ensures NothingExported(source, bucket, c, lib, watermark)
  {
    FilterNone(Partition(source, bucket, c, lib), SelectedBy(watermark));
  }

  function Extended(source: Source, later: Log): Source { source.(log := Extend(source.log, later)) }

  lemma EmptyStaysEmpty(source: Source, later: Log, bucket: BucketSize, c: Config, lib: Library, watermark: int)
    requires bucket.ns > 0 && Late(later, watermark) && ValidMeansPositive(source.log.cme)
    requires NothingExported(source, bucket, c, lib, watermark)
    ensures NothingExported(Extended(source, later), bucket, c, lib, watermark)
  {
    var x := Extended(source, later);
    if bucket.name !in EXPORTED_SIZES {
      UnexportedSize(x, bucket, c, lib, watermark);
    } else {
      NothingExportedExactly(source, bucket, c, lib, watermark);
      NothingExportedExactly(x, bucket, c, lib, watermark);
      var chosen := ChosenKeys(x.log, bucket, c, lib, watermark);
      if chosen != {} {
        var k := Member(chosen);
        NothingNewIsChosen(source.log, later, bucket, c, lib, watermark, k);
        assert false;
      }
    }
  }

  /** Later events leave the exported rows of a guarded partition as they are. */
  lemma ExtendedPartitionStable(source: Source, later: Log, bucket: BucketSize, c: Config, lib: Library, watermark: int)
    requires bucket.ns > 0 && Late(later, watermark) && Guarded(source, bucket, c, lib, watermark)
    requires PositiveQuotes(source.log) && ValidMeansPositive(source.log.cme)
    ensures Filter(Partition(Extended(source, later), bucket, c, lib), SelectedBy(watermark))
         == Filter(Partition(source, bucket, c, lib), SelectedBy(watermark))
  {
    if bucket.name in EXPORTED_SIZES {
      NothingReadyExactly(source, bucket, c, lib, watermark);
    } else {
      UnexportedSize(source, bucket, c, lib, watermark);
    }
    if NothingExported(source, bucket, c, lib, watermark) {
      EmptyStaysEmpty(source, later, bucket, c, lib, watermark);
    } else {
      NothingExportedExactly(source, bucket, c, lib, watermark);
      var top := Member(ChosenKeys(source.log, bucket, c, lib, watermark));
      ChosenMeansSafe(source.log, later, bucket, c, lib, watermark, top);
      PartitionStable(Extended(source, later), source, bucket, c, lib, watermark);
    }
  }

  /** A chosen bucket is closed and co-present, so the extension stays settled. */
  lemma ChosenMeansSafe(log: Log, later: Log, bucket: BucketSize, c: Config, lib: Library, watermark: int, top: int)
    requires bucket.ns > 0 && Late(later, watermark) && Settled(log, bucket.ns)
    requires PositiveQuotes(log) && ValidMeansPositive(log.cme)
    requires top in ChosenKeys(log, bucket, c, lib, watermark)
    ensures SafePair(Extend(log, later), log, bucket.ns, watermark)
  {
    ExtensionAgrees(log, later, watermark);
    ExtensionIsIngested(log, later, watermark);
    ChosenIsCoPresent(log, bucket, c, lib, watermark, top);
    ExtensionStaysSettled(log, later, watermark, bucket.ns, top, lib);
  }

  lemma ChosenIsCoPresent(log: Log, bucket: BucketSize, c: Config, lib: Library, watermark: int, top: int)
    requires bucket.ns > 0 && ValidMeansPositive(log.cme) && top in ChosenKeys(log, bucket, c, lib, watermark)
    ensures CoPresent(log, bucket.ns, top) && top + bucket.ns <= watermark
  {
    EligibleExactly(log, bucket.ns, top, lib, c, bucket.name);
  }

  // ----- the whole export

  ghost predicate SafeSource(source: Source, buckets: seq<BucketSize>, c: Config, lib: Library, watermark: int) {
    && Ingested(source.log)
    && forall b :: b in buckets && b.ns > 0 ==> Guarded(source, b, c, lib, watermark)
  }

  function ExtendAll(sources: seq<Source>, later: seq<Log>): (r: seq<Source>)
    requires |later| == |sources|
  {
    if sources == [] then []
    else [Extended(sources[0], later[0])] + ExtendAll(sources[1..], later[1..])
  }

  lemma {:induction false} PairStable(source: Source, later: Log, buckets: seq<BucketSize>, c: Config, lib: Library, watermark: int)
    requires ValidSizes(buckets) && Late(later, watermark) && SafeSource(source, buckets, c, lib, watermark)
    ensures Filter(PairRows(Extended(source, later), buckets, c, lib), SelectedBy(watermark))
         == Filter(PairRows(source, buckets, c, lib), SelectedBy(watermark))
  {
    if buckets != [] {
      var x := Extended(source, later);
      PairStable(source, later, buckets[1..], c, lib, watermark);
      assert buckets[0] in buckets;
      ExtendedPartitionStable(source, later, buckets[0], c, lib, watermark);
      FilterAppend(Partition(source, buckets[0], c, lib), PairRows(source, buckets[1..], c, lib), SelectedBy(watermark));
      FilterAppend(Partition(x, buckets[0], c, lib), PairRows(x, buckets[1..], c, lib), SelectedBy(watermark));
    }
  }

  lemma {:induction false} BuildStable(sources: seq<Source>, later: seq<Log>, buckets: seq<BucketSize>, c: Config, lib: Library, watermark: int)
    requires ValidSizes(buckets) && |later| == |sources|
    requires forall i :: 0 <= i < |sources| ==> SafeSource(sources[i], buckets, c, lib, watermark) && Late(later[i], watermark)
    ensures Filter(BuildRows(ExtendAll(sources, later), buckets, c, lib), SelectedBy(watermark))
         == Filter(BuildRows(sources, buckets, c, lib), SelectedBy(watermark))
  {
    if sources != [] {
      BuildStable(sources[1..], later[1..], buckets, c, lib, watermark);
      PairStable(sources[0], later[0], buckets, c, lib, watermark);
      var xs := ExtendAll(sources, later);
      assert xs[0] == Extended(sources[0], later[0]) && xs[1..] == ExtendAll(sources[1..], later[1..]);
      FilterAppend(PairRows(sources[0], buckets, c, lib), BuildRows(sources[1..], buckets, c, lib), SelectedBy(watermark));
      FilterAppend(PairRows(xs[0], buckets, c, lib), BuildRows(xs[1..], buckets, c, lib), SelectedBy(watermark));
    }
  }

  /**
   * No look-ahead: whatever trades and quotes arrive at or after the watermark, for every pair, the
   * exported rows closed by the watermark stay the same in every feature and in the same order, and so
   * does the outcome of an export that had any row. Every partition must be settled or have no bucket ready for export.
   */
  lemma NoLookAhead(sources: seq<Source>, later: seq<Log>, buckets: seq<BucketSize>, c: Config, lib: Library, watermark: int)
    requires ValidSizes(buckets) && |later| == |sources|
    requires forall i :: 0 <= i < |sources| ==> SafeSource(sources[i], buckets, c, lib, watermark) && Late(later[i], watermark)
    ensures ExportRows(ExtendAll(sources, later), buckets, c, lib, watermark) == ExportRows(sources, buckets, c, lib, watermark)
    ensures ExportRows(sources, buckets, c, lib, watermark) != [] ==>
      Export(ExtendAll(sources, later), buckets, c, lib, watermark) == Export(sources, buckets, c, lib, watermark)
  {
    BuildStable(sources, later, buckets, c, lib, watermark);
    RowsComeFromBuild(sources, buckets, c, lib, watermark);
    RowsComeFromBuild(ExtendAll(sources, later), buckets, c, lib, watermark);
  }

  lemma RowsComeFromBuild(sources: seq<Source>, buckets: seq<BucketSize>, c: Config, lib: Library, watermark: int)
    requires ValidSizes(buckets)
    ensures BuildRows(sources, buckets, c, lib) == [] ==> ExportRows(sources, buckets, c, lib, watermark) == []
  {
  }
}
