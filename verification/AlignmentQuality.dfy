/** Per-symbol alignment metrics, tolerance diagnostics and the overlap short-circuit. */
module AlignmentQuality {
  import opened Sequences
  import opened AsOfJoin
  import opened Units

  // ----- configuration

  /** Diagnostic tolerances: the positive ones, deduplicated and ascending, plus the required one. */
  function NormaliseTolerances(required: int, diagnostic: seq<int>): Result<seq<int>, AlignError> {
    if required <= 0 then Err(BadTolerance)
    else
      var positive := AscendingOf(set t | t in diagnostic && t > 0);
      if required in positive then Ok(positive)
      else Ok(SortBy(positive + [required], IntLeq))
  }

  predicate IntLeq(x: int, y: int) { x <= y }

  lemma TolerancesAreExact(required: int, diagnostic: seq<int>)
    ensures NormaliseTolerances(required, diagnostic).Err? <==> required <= 0
    ensures required > 0 ==> Ascending(NormaliseTolerances(required, diagnostic).value)
    ensures required > 0 ==> forall t :: t in NormaliseTolerances(required, diagnostic).value <==> t == required || (t in diagnostic && t > 0)
  {
    if required > 0 {
      var positive := AscendingOf(set t | t in diagnostic && t > 0);
      if required !in positive { InsertedStaysAscending(positive, required); }
    }
  }

  lemma InsertedStaysAscending(s: seq<int>, x: int)
    requires Ascending(s) && x !in s
    ensures Ascending(SortBy(s + [x], IntLeq))
    ensures forall t :: t in SortBy(s + [x], IntLeq) <==> t in s || t == x
  {
    var r := SortBy(s + [x], IntLeq);
    SortByIsSorted(s + [x], IntLeq);
    SortMembers(s + [x], IntLeq);
    SortPermutes(s + [x], IntLeq);
    forall t ensures multiset(r)[t] <= 1 { AscendingOnce(s, t); }
    SortedOnceAscends(r);
  }

  lemma SortedOnceAscends(r: seq<int>)
    requires SortedBy(r, IntLeq) && forall t :: multiset(r)[t] <= 1
    ensures Ascending(r)
  {
    forall i, j | 0 <= i < j < |r| ensures r[i] < r[j] {
      assert IntLeq(r[i], r[j]);
      if r[i] == r[j] { TwiceInSorted(r, i, j); }
    }
  }

  lemma TwiceInSorted(r: seq<int>, i: nat, j: nat)
    requires i < j < |r| && r[i] == r[j]
    ensures multiset(r)[r[i]] >= 2
  {
    assert r == r[..i] + ([r[i]] + (r[i + 1..j] + ([r[j]] + r[j + 1..])));
  }

  lemma {:induction false} AscendingOnce(s: seq<int>, x: int)
    requires Ascending(s)
    ensures multiset(s)[x] <= 1
  {
    if s != [] {
      AscendingOnce(s[1..], x);
      assert s == [s[0]] + s[1..];
      if x == s[0] {
        assert x !in s[1..];
      }
    }
  }

  // ----- data

  datatype Trade = Trade(eventNs: int, size: Option<int>, aggressor: string, valid: bool)

  datatype Dataset = Dataset(trades: seq<Trade>, times: seq<int>, safe: seq<bool>)
  {
    ghost predicate Valid() { |times| == |safe| && NonDecreasing(times) }
  }

  /** A missing size counts as zero. */
  function SizeOf(t: Trade): int { if t.size.Some? then t.size.value else 0 }

  function HourOf(t: Trade): int { t.eventNs / 1_000_000_000 / 3600 % 24 }

  datatype Hour = Hour(total: nat, aligned: nat)
  datatype Rate = Rate(count: nat, volume: int)

  datatype Metrics = Metrics(
    tradesTotal: nat,
    volumeTotal: int,
    aligned: nat,
    alignedVolume: int,
    matched: seq<nat>,
    countByReason: map<Reason, nat>,
    volumeByReason: map<Reason, int>,
    unknownCount: nat,
    unknownVolume: int,
    byHour: map<int, Hour>,
    sample: seq<Unaligned>,
    diagnostics: map<int, Rate>)

  datatype Unaligned = Unaligned(eventNs: int, size: int, aggressor: string, reason: Reason)

  // ----- specification: what happens to one trade, and counting over trades

  ghost function ReasonFor(times: seq<int>, safe: seq<bool>, eventMs: int, tolerance: int): (r: Reason)
    requires |times| == |safe| && BestMatch(times, safe, eventMs, tolerance).None?
    ensures ReasonHolds(times, safe, eventMs, tolerance, r)
  {
    ReasonsPartitionFailures(times, safe, eventMs, tolerance);
    var r :| ReasonHolds(times, safe, eventMs, tolerance, r);
    r
  }

  datatype Fate = Aligned(index: nat) | Lost(reason: Reason)

  ghost function FateOf(d: Dataset, tolerance: int, overlap: bool, t: Trade): Fate
    requires d.Valid()
  {
    if !t.valid then Lost(InvalidTrade)
    else if !overlap then Lost(NoOverlapWindow)
    else
      var m := MatchOf(d.times, d.safe, t.eventNs, tolerance);
      if m.Some? then Aligned(m.value) else Lost(ReasonFor(d.times, d.safe, t.eventNs / MS_TO_NS, tolerance))
  }

  datatype Class = All | IsAligned | HasReason(reason: Reason) | Unknown | InHour(hour: int) | AlignedInHour(hour: int)

  predicate Selects(c: Class, t: Trade, f: Fate) {
    match c
    case All => true
    case IsAligned => f.Aligned?
    case HasReason(r) => f == Lost(r)
    case Unknown => t.valid && t.aggressor == "UNKNOWN"
    case InHour(h) => t.valid && HourOf(t) == h
    case AlignedInHour(h) => f.Aligned? && HourOf(t) == h
  }

  ghost function Count(d: Dataset, tolerance: int, overlap: bool, c: Class, n: nat): nat
    requires d.Valid() && n <= |d.trades|
  {
    if n == 0 then 0
    else
      var t := d.trades[n - 1];
      Count(d, tolerance, overlap, c, n - 1) + if Selects(c, t, FateOf(d, tolerance, overlap, t)) then 1 else 0
  }

  ghost function Volume(d: Dataset, tolerance: int, overlap: bool, c: Class, n: nat): int
    requires d.Valid() && n <= |d.trades|
  {
    if n == 0 then 0
    else
      var t := d.trades[n - 1];
      Volume(d, tolerance, overlap, c, n - 1) + if Selects(c, t, FateOf(d, tolerance, overlap, t)) then SizeOf(t) else 0
  }

  /** The quotes used, in trade order. */
  ghost function MatchedIndices(d: Dataset, tolerance: int, overlap: bool, n: nat): seq<nat>
    requires d.Valid() && n <= |d.trades|
  {
    if n == 0 then []
    else
      var f := FateOf(d, tolerance, overlap, d.trades[n - 1]);
      MatchedIndices(d, tolerance, overlap, n - 1) + if f.Aligned? then [f.index] else []
  }

  /** Valid trades without a match, in trade order. */
  ghost function Unmatched(d: Dataset, tolerance: int, overlap: bool, n: nat): seq<Unaligned>
    requires d.Valid() && n <= |d.trades|
  {
    if n == 0 then []
    else
      var t := d.trades[n - 1];
      var f := FateOf(d, tolerance, overlap, t);
      Unmatched(d, tolerance, overlap, n - 1)
        + if t.valid && f.Lost? then [Unaligned(t.eventNs, SizeOf(t), t.aggressor, f.reason)] else []
  }

  function GetOr<K, V>(m: map<K, V>, k: K, default: V): V {
    if k in m then m[k] else default
  }

  function Truncate<T>(s: seq<T>, limit: int): seq<T> {
    if limit <= 0 then [] else if |s| <= limit then s else s[..limit]
  }

  ghost predicate ReasonsCounted(d: Dataset, tolerance: int, overlap: bool, counts: map<Reason, nat>, volumes: map<Reason, int>, n: nat)
    requires d.Valid() && n <= |d.trades|
  {
    forall r: Reason ::
      && GetOr(counts, r, 0) == Count(d, tolerance, overlap, HasReason(r), n)
      && GetOr(volumes, r, 0) == Volume(d, tolerance, overlap, HasReason(r), n)
  }

  ghost predicate HoursCounted(d: Dataset, tolerance: int, overlap: bool, byHour: map<int, Hour>, n: nat)
    requires d.Valid() && n <= |d.trades|
  {
    forall h: int :: GetOr(byHour, h, Hour(0, 0))
      == Hour(Count(d, tolerance, overlap, InHour(h), n), Count(d, tolerance, overlap, AlignedInHour(h), n))
  }

  /** Every counter is exact for the first n trades. */
  ghost predicate Exact(d: Dataset, tolerance: int, overlap: bool, limit: int, m: Metrics, n: nat)
    requires d.Valid() && n <= |d.trades|
  {
    && m.tradesTotal == n
    && m.volumeTotal == Volume(d, tolerance, overlap, All, n)
    && m.aligned == Count(d, tolerance, overlap, IsAligned, n)
    && m.alignedVolume == Volume(d, tolerance, overlap, IsAligned, n)
    && m.matched == MatchedIndices(d, tolerance, overlap, n)
    && m.unknownCount == Count(d, tolerance, overlap, Unknown, n)
    && m.unknownVolume == Volume(d, tolerance, overlap, Unknown, n)
    && ReasonsCounted(d, tolerance, overlap, m.countByReason, m.volumeByReason, n)
    && HoursCounted(d, tolerance, overlap, m.byHour, n)
    && m.sample == Truncate(Unmatched(d, tolerance, overlap, n), limit)
  }

  ghost predicate DiagnosticsExact(d: Dataset, tolerances: seq<int>, overlap: bool, diagnostics: map<int, Rate>)
    requires d.Valid()
  {
    var n := |d.trades|;
    && (overlap && n > 0 ==> forall t :: t in diagnostics <==> t in tolerances)
    && (!(overlap && n > 0) ==> diagnostics == map[])
    && (forall t :: t in diagnostics ==>
          diagnostics[t] == Rate(Count(d, t, true, IsAligned, n), Volume(d, t, true, IsAligned, n)))
  }

  // ----- the metrics loop

  lemma EventFate(d: Dataset, tolerance: int, t: Trade, e: EventMatch)
    requires d.Valid() && t.valid
    requires e.Matched? <==> MatchOf(d.times, d.safe, t.eventNs, tolerance).Some?
    requires e.Matched? ==> MatchOf(d.times, d.safe, t.eventNs, tolerance) == Some(e.index)
    requires e.Unmatched? ==> ReasonHolds(d.times, d.safe, t.eventNs / MS_TO_NS, tolerance, e.reason)
    ensures FateOf(d, tolerance, true, t) == if e.Matched? then Aligned(e.index) else Lost(e.reason)
  {
    ReasonsPartitionFailures(d.times, d.safe, t.eventNs / MS_TO_NS, tolerance);
  }

  /** The chain of checks one trade goes through. */
  method Classify(d: Dataset, tolerance: int, overlap: bool, t: Trade) returns (f: Fate)
    requires d.Valid()
    ensures f == FateOf(d, tolerance, overlap, t)
  {
    if !t.valid { return Lost(InvalidTrade); }
    if !overlap { return Lost(NoOverlapWindow); }
    var e := AlignOneEvent(t.eventNs, d.times, d.safe, tolerance);
    EventFate(d, tolerance, t, e);
    return if e.Matched? then Aligned(e.index) else Lost(e.reason);
  }

  function CountTrade(m: Metrics, t: Trade): Metrics {
    var unknown := t.valid && t.aggressor == "UNKNOWN";
    var b := GetOr(m.byHour, HourOf(t), Hour(0, 0));
    m.(tradesTotal := m.tradesTotal + 1,
       volumeTotal := m.volumeTotal + SizeOf(t),
       unknownCount := m.unknownCount + if unknown then 1 else 0,
       unknownVolume := m.unknownVolume + if unknown then SizeOf(t) else 0,
       byHour := if t.valid then m.byHour[HourOf(t) := b.(total := b.total + 1)] else m.byHour)
  }

  function CountMatch(m: Metrics, t: Trade, index: nat): Metrics {
    var b := GetOr(m.byHour, HourOf(t), Hour(0, 0));
    m.(aligned := m.aligned + 1,
       alignedVolume := m.alignedVolume + SizeOf(t),
       matched := m.matched + [index],
       byHour := m.byHour[HourOf(t) := b.(aligned := b.aligned + 1)])
  }

  function CountLoss(m: Metrics, t: Trade, reason: Reason, limit: int): Metrics {
    m.(countByReason := m.countByReason[reason := GetOr(m.countByReason, reason, 0) + 1],
       volumeByReason := m.volumeByReason[reason := GetOr(m.volumeByReason, reason, 0) + SizeOf(t)],
       sample := if t.valid && |m.sample| < limit
                 then m.sample + [Unaligned(t.eventNs, SizeOf(t), t.aggressor, reason)] else m.sample)
  }

  function Record(m: Metrics, t: Trade, f: Fate, limit: int): Metrics {
    if f.Aligned? then CountMatch(CountTrade(m, t), t, f.index) else CountLoss(CountTrade(m, t), t, f.reason, limit)
  }

  lemma RecordReasons(d: Dataset, tolerance: int, overlap: bool, m: Metrics, i: nat, f: Fate, limit: int)
    requires d.Valid() && i < |d.trades| && f == FateOf(d, tolerance, overlap, d.trades[i])
    requires ReasonsCounted(d, tolerance, overlap, m.countByReason, m.volumeByReason, i)
    ensures var r := Record(m, d.trades[i], f, limit);
            ReasonsCounted(d, tolerance, overlap, r.countByReason, r.volumeByReason, i + 1)
  {
  }

  lemma RecordHours(d: Dataset, tolerance: int, overlap: bool, m: Metrics, i: nat, f: Fate, limit: int)
    requires d.Valid() && i < |d.trades| && f == FateOf(d, tolerance, overlap, d.trades[i])
    requires HoursCounted(d, tolerance, overlap, m.byHour, i)
    ensures HoursCounted(d, tolerance, overlap, Record(m, d.trades[i], f, limit).byHour, i + 1)
  {
  }

  lemma RecordSample(d: Dataset, tolerance: int, overlap: bool, m: Metrics, i: nat, f: Fate, limit: int)
    requires d.Valid() && i < |d.trades| && f == FateOf(d, tolerance, overlap, d.trades[i])
    requires m.sample == Truncate(Unmatched(d, tolerance, overlap, i), limit)
    ensures Record(m, d.trades[i], f, limit).sample == Truncate(Unmatched(d, tolerance, overlap, i + 1), limit)
  {
  }

  lemma RecordIsExact(d: Dataset, tolerance: int, overlap: bool, m: Metrics, i: nat, f: Fate, limit: int)
    requires d.Valid() && i < |d.trades| && f == FateOf(d, tolerance, overlap, d.trades[i])
    requires Exact(d, tolerance, overlap, limit, m, i)
    ensures Exact(d, tolerance, overlap, limit, Record(m, d.trades[i], f, limit), i + 1)
  {
    RecordReasons(d, tolerance, overlap, m, i, f, limit);
    RecordHours(d, tolerance, overlap, m, i, f, limit);
    RecordSample(d, tolerance, overlap, m, i, f, limit);
  }

  method PerSymbolMetrics(d: Dataset, tolerance: int, tolerances: seq<int>, limit: int, overlap: bool) returns (m: Metrics)
    requires d.Valid()
    ensures Exact(d, tolerance, overlap, limit, m, |d.trades|)
    ensures DiagnosticsExact(d, tolerances, overlap, m.diagnostics)
  {
    m := Metrics(0, 0, 0, 0, [], map[], map[], 0, 0, map[], [], map[]);
    for i := 0 to |d.trades|
      invariant Exact(d, tolerance, overlap, limit, m, i)
    {
      var f := Classify(d, tolerance, overlap, d.trades[i]);
      RecordIsExact(d, tolerance, overlap, m, i, f, limit);
      m := Record(m, d.trades[i], f, limit);
    }
    var diagnostics: map<int, Rate> := map[];
    if overlap && m.tradesTotal > 0 {
      diagnostics := Diagnose(d, tolerances);
    }
    m := m.(diagnostics := diagnostics);
  }

  method Diagnose(d: Dataset, tolerances: seq<int>) returns (diagnostics: map<int, Rate>)
    requires d.Valid()
    ensures forall t :: t in diagnostics <==> t in tolerances
    ensures forall t :: t in diagnostics ==>
      diagnostics[t] == Rate(Count(d, t, true, IsAligned, |d.trades|), Volume(d, t, true, IsAligned, |d.trades|))
  {
    diagnostics := map[];
    for k := 0 to |tolerances|
      invariant forall t :: t in diagnostics <==> t in tolerances[..k]
      invariant forall t :: t in diagnostics ==>
        diagnostics[t] == Rate(Count(d, t, true, IsAligned, |d.trades|), Volume(d, t, true, IsAligned, |d.trades|))
    {
      var tolerance := tolerances[k];
      var count: nat, volume := 0, 0;
      for i := 0 to |d.trades|
        invariant count == Count(d, tolerance, true, IsAligned, i)
        invariant volume == Volume(d, tolerance, true, IsAligned, i)
      {
        var t := d.trades[i];
        if !t.valid { continue; }
        var e := AlignOneEvent(t.eventNs, d.times, d.safe, tolerance);
        EventFate(d, tolerance, t, e);
        if e.Matched? {
          count := count + 1;
          volume := volume + SizeOf(t);
        }
      }
      diagnostics := diagnostics[tolerance := Rate(count, volume)];
      assert tolerances[..k + 1] == tolerances[..k] + [tolerance];
    }
    assert tolerances[..|tolerances|] == tolerances;
  }

  // ----- conservation

  function ReasonSum(m: map<Reason, int>): int {
    GetOr(m, NoQuotes, 0) + GetOr(m, NoPriorQuote, 0) + GetOr(m, OutsideTolerance, 0)
      + GetOr(m, NotJoinSafe, 0) + GetOr(m, NoOverlapWindow, 0) + GetOr(m, InvalidTrade, 0)
  }

  ghost function LostCount(d: Dataset, tolerance: int, overlap: bool, n: nat): int
    requires d.Valid() && n <= |d.trades|
  {
    Count(d, tolerance, overlap, HasReason(NoQuotes), n) + Count(d, tolerance, overlap, HasReason(NoPriorQuote), n)
      + Count(d, tolerance, overlap, HasReason(OutsideTolerance), n) + Count(d, tolerance, overlap, HasReason(NotJoinSafe), n)
      + Count(d, tolerance, overlap, HasReason(NoOverlapWindow), n) + Count(d, tolerance, overlap, HasReason(InvalidTrade), n)
  }

  ghost function LostVolume(d: Dataset, tolerance: int, overlap: bool, n: nat): int
    requires d.Valid() && n <= |d.trades|
  {
    Volume(d, tolerance, overlap, HasReason(NoQuotes), n) + Volume(d, tolerance, overlap, HasReason(NoPriorQuote), n)
      + Volume(d, tolerance, overlap, HasReason(OutsideTolerance), n) + Volume(d, tolerance, overlap, HasReason(NotJoinSafe), n)
      + Volume(d, tolerance, overlap, HasReason(NoOverlapWindow), n) + Volume(d, tolerance, overlap, HasReason(InvalidTrade), n)
  }

  lemma {:induction false} EveryTradeHasOneFate(d: Dataset, tolerance: int, overlap: bool, n: nat)
    requires d.Valid() && n <= |d.trades|
    ensures Count(d, tolerance, overlap, IsAligned, n) + LostCount(d, tolerance, overlap, n) == n
    ensures Volume(d, tolerance, overlap, IsAligned, n) + LostVolume(d, tolerance, overlap, n) == Volume(d, tolerance, overlap, All, n)
  {
    if n > 0 { EveryTradeHasOneFate(d, tolerance, overlap, n - 1); }
  }

  /** Aligned trades plus the trades lost to each reason account for every trade and all volume. */
  lemma MetricsConserve(d: Dataset, tolerance: int, overlap: bool, limit: int, m: Metrics)
    requires d.Valid() && Exact(d, tolerance, overlap, limit, m, |d.trades|)
    ensures m.aligned + ReasonSum(m.countByReason) == m.tradesTotal
    ensures m.alignedVolume + ReasonSum(m.volumeByReason) == m.volumeTotal
  {
    EveryTradeHasOneFate(d, tolerance, overlap, |d.trades|);
  }

  function HourSum(byHour: map<int, Hour>, k: nat): Hour {
    if k == 0 then Hour(0, 0)
    else
      var rest, h := HourSum(byHour, k - 1), GetOr(byHour, k - 1, Hour(0, 0));
      Hour(rest.total + h.total, rest.aligned + h.aligned)
  }

  ghost function HourCounts(d: Dataset, tolerance: int, overlap: bool, n: nat, k: nat): Hour
    requires d.Valid() && n <= |d.trades|
  {
    if k == 0 then Hour(0, 0)
    else
      var rest := HourCounts(d, tolerance, overlap, n, k - 1);
      Hour(rest.total + Count(d, tolerance, overlap, InHour(k - 1), n),
           rest.aligned + Count(d, tolerance, overlap, AlignedInHour(k - 1), n))
  }

  lemma {:induction false} HourSumCounts(d: Dataset, tolerance: int, overlap: bool, byHour: map<int, Hour>, n: nat, k: nat)
    requires d.Valid() && n <= |d.trades| && HoursCounted(d, tolerance, overlap, byHour, n)
    ensures HourSum(byHour, k) == HourCounts(d, tolerance, overlap, n, k)
  {
    if k > 0 { HourSumCounts(d, tolerance, overlap, byHour, n, k - 1); }
  }

  lemma {:induction false} OneTradeOneHour(d: Dataset, tolerance: int, overlap: bool, n: nat, k: nat)
    requires d.Valid() && 0 < n <= |d.trades|
    ensures var t := d.trades[n - 1];
            var f := FateOf(d, tolerance, overlap, t);
            var here := 0 <= HourOf(t) < k;
            var rest := HourCounts(d, tolerance, overlap, n - 1, k);
            HourCounts(d, tolerance, overlap, n, k)
              == Hour(rest.total + if t.valid && here then 1 else 0, rest.aligned + if f.Aligned? && here then 1 else 0)
  {
    if k > 0 { OneTradeOneHour(d, tolerance, overlap, n, k - 1); }
  }

  lemma {:induction false} NothingYet(d: Dataset, tolerance: int, overlap: bool, k: nat)
    requires d.Valid()
    ensures HourCounts(d, tolerance, overlap, 0, k) == Hour(0, 0)
  {
    if k > 0 { NothingYet(d, tolerance, overlap, k - 1); }
  }

  lemma OnlyInvalidIsInvalid(d: Dataset, tolerance: int, overlap: bool, t: Trade)
    requires d.Valid()
    ensures FateOf(d, tolerance, overlap, t) == Lost(InvalidTrade) <==> !t.valid
  {
  }

  lemma {:induction false} DayCounts(d: Dataset, tolerance: int, overlap: bool, n: nat)
    requires d.Valid() && n <= |d.trades|
    ensures var day := HourCounts(d, tolerance, overlap, n, 24);
            && day.total == n - Count(d, tolerance, overlap, HasReason(InvalidTrade), n)
            && day.aligned == Count(d, tolerance, overlap, IsAligned, n)
  {
    if n == 0 {
      NothingYet(d, tolerance, overlap, 24);
    } else {
      DayCounts(d, tolerance, overlap, n - 1);
      OneTradeOneHour(d, tolerance, overlap, n, 24);
      var t := d.trades[n - 1];
      assert 0 <= HourOf(t) < 24;
      var f := FateOf(d, tolerance, overlap, t);
      OnlyInvalidIsInvalid(d, tolerance, overlap, t);
    }
  }

  /** The 24 hourly totals add up to the valid trades, the hourly matches to the aligned count. */
  lemma HoursConserve(d: Dataset, tolerance: int, overlap: bool, limit: int, m: Metrics)
    requires d.Valid() && Exact(d, tolerance, overlap, limit, m, |d.trades|)
    ensures HourSum(m.byHour, 24).total == m.tradesTotal - GetOr(m.countByReason, InvalidTrade, 0)
    ensures HourSum(m.byHour, 24).aligned == m.aligned
  {
    HourSumCounts(d, tolerance, overlap, m.byHour, |d.trades|, 24);
    DayCounts(d, tolerance, overlap, |d.trades|);
  }

  // ----- tolerance monotonicity

  lemma {:induction false} WideningGains(d: Dataset, narrow: int, wide: int, n: nat)
    requires d.Valid() && n <= |d.trades| && narrow <= wide
    ensures Count(d, narrow, true, IsAligned, n) <= Count(d, wide, true, IsAligned, n)
    ensures (forall t :: t in d.trades ==> SizeOf(t) >= 0) ==>
              Volume(d, narrow, true, IsAligned, n) <= Volume(d, wide, true, IsAligned, n)
  {
    if n > 0 {
      WideningGains(d, narrow, wide, n - 1);
      var t := d.trades[n - 1];
      if t.valid && FateOf(d, narrow, true, t).Aligned? {
        WideningKeepsMatches(d.times, d.safe, t.eventNs / MS_TO_NS, narrow, wide);
      }
    }
  }

  /**
   * The diagnostic table is non-decreasing in the tolerance, contains the required tolerance, and
   * repeats the main counts there.
   */
  lemma DiagnosticsMonotone(d: Dataset, tolerance: int, diagnostic: seq<int>, limit: int, m: Metrics)
    requires d.Valid() && d.trades != [] && tolerance > 0
    requires Exact(d, tolerance, true, limit, m, |d.trades|)
    requires DiagnosticsExact(d, NormaliseTolerances(tolerance, diagnostic).value, true, m.diagnostics)
    ensures tolerance in m.diagnostics && m.diagnostics[tolerance] == Rate(m.aligned, m.alignedVolume)
    ensures forall a, b :: a in m.diagnostics && b in m.diagnostics && a <= b ==> m.diagnostics[a].count <= m.diagnostics[b].count
    ensures (forall t :: t in d.trades ==> SizeOf(t) >= 0) ==>
              forall a, b :: a in m.diagnostics && b in m.diagnostics && a <= b ==> m.diagnostics[a].volume <= m.diagnostics[b].volume
  {
    TolerancesAreExact(tolerance, diagnostic);
    forall a, b | a in m.diagnostics && b in m.diagnostics && a <= b
      ensures m.diagnostics[a].count <= m.diagnostics[b].count
      ensures (forall t :: t in d.trades ==> SizeOf(t) >= 0) ==> m.diagnostics[a].volume <= m.diagnostics[b].volume
    {
      WideningGains(d, a, b, |d.trades|);
    }
  }

  // ----- the overlap short-circuit

  datatype Window = Window(lo: int, hi: int)

  function Greatest(s: set<int>): (m: int)
    requires s != {}
    ensures m in s && forall y :: y in s ==> y <= m
  {
    var r := AscendingOf(s);
    var x := Least(s);
    assert x in r;
    assert forall i :: 0 <= i < |r| ==> r[i] in r;
    r[|r| - 1]
  }

  function EventWindow(events: seq<int>): (w: Option<Window>)
    ensures w.None? <==> events == []
    ensures w.Some? ==> w.value.lo in events && w.value.hi in events
    ensures w.Some? ==> forall t :: t in events ==> w.value.lo <= t <= w.value.hi
  {
    if events == [] then None
    else
      var s := set t | t in events;
      assert events[0] in s;
      assert forall t :: t in events ==> t in s;
      Some(Window(Least(s), Greatest(s)))
  }

  function QuoteWindow(times: seq<int>): Option<Window> {
    var w := EventWindow(times);
    if w.None? then None else Some(Window(w.value.lo * MS_TO_NS, w.value.hi * MS_TO_NS))
  }

  function Overlap(a: Option<Window>, b: Option<Window>): Option<Window> {
    if a.None? || b.None? then None
    else
      var lo := if a.value.lo >= b.value.lo then a.value.lo else b.value.lo;
      var hi := if a.value.hi <= b.value.hi then a.value.hi else b.value.hi;
      if lo > hi then None else Some(Window(lo, hi))
  }

  function AlignmentOverlap(events: Option<Window>, quotes: Option<Window>, tolerance: int): Option<Window> {
    if events.None? || quotes.None? then None
    else Overlap(Some(Window(events.value.lo - tolerance * MS_TO_NS, events.value.hi)), quotes)
  }

  /**
   * When the widened windows do not meet, the only event that could still align is one whose
   * millisecond lies exactly the tolerance after the last quote.
   */
  lemma ShortCircuitIsExact(events: seq<int>, times: seq<int>, safe: seq<bool>, tolerance: int, event: int)
    requires |times| == |safe| && NonDecreasing(times) && tolerance >= 0 && event in events
    requires AlignmentOverlap(EventWindow(events), QuoteWindow(times), tolerance).None?
    ensures MatchOf(times, safe, event, tolerance).Some? <==>
              exists i :: 0 <= i < |times| && safe[i] && times[i] == times[|times| - 1] && event / MS_TO_NS == times[i] + tolerance
    ensures event % MS_TO_NS == 0 ==> MatchOf(times, safe, event, tolerance).None?
    ensures MatchOf(times, safe, event, tolerance - 1).None?
  {
    if times != [] {
      var last := times[|times| - 1];
      var w, e := EventWindow(times).value, EventWindow(events).value;
      assert last in times && times[0] in times;
      assert w == Window(times[0], last);
      assert e.lo <= event <= e.hi;
      var ms := event / MS_TO_NS;
      if event > last * MS_TO_NS + tolerance * MS_TO_NS {
        assert ms >= last + tolerance;
        forall i | 0 <= i < |times| && Matches(times, safe, ms, tolerance, i) ensures times[i] == last && ms == last + tolerance {
          assert times[i] <= last;
        }
        if i :| 0 <= i < |times| && safe[i] && times[i] == last && ms == last + tolerance {
          assert Matches(times, safe, ms, tolerance, i);
        }
      } else {
        assert event < times[0] * MS_TO_NS;
        assert ms < times[0];
      }
    }
  }

  /** The bound is tight: an event 1 ns too late for the window check still aligns at the tolerance. */
  lemma ShortCircuitLosesAMatch()
    ensures AlignmentOverlap(EventWindow([50_000_001]), QuoteWindow([0]), 50).None?
    ensures MatchOf([0], [true], 50_000_001, 50) == Some(0)
  {
    assert EventWindow([0]).value.lo in [0] && EventWindow([50_000_001]).value.lo in [50_000_001];
    var m := MatchOf([0], [true], 50_000_001, 50);
    assert Matches([0], [true], 50, 50, 0);
  }

  // ----- the report, read from the trades and quotes

  /** The event lies in this hour of some UTC day. */
  ghost predicate AtHour(eventNs: int, h: int) {
    exists day: int :: HourOfDay(eventNs, day, h)
  }

  ghost predicate HourOfDay(eventNs: int, day: int, h: int) {
    (day * 24 + h) * 3_600_000_000_000 <= eventNs < (day * 24 + h + 1) * 3_600_000_000_000
  }

  lemma HourIsOfDay(t: Trade, h: int)
    requires 0 <= h < 24
    ensures HourOf(t) == h <==> AtHour(t.eventNs, h)
  {
    var hours := t.eventNs / 1_000_000_000 / 3600;
    assert hours * 3_600_000_000_000 <= t.eventNs < (hours + 1) * 3_600_000_000_000;
    if HourOf(t) == h { assert HourOfDay(t.eventNs, hours / 24, h); }
    if day :| HourOfDay(t.eventNs, day, h) { assert hours == day * 24 + h; }
  }

  /** The trade is used: valid, the windows overlap, and some safe quote is not later and at most the tolerance older. */
  ghost predicate Used(d: Dataset, tolerance: int, overlap: bool, t: Trade)
    requires d.Valid()
  {
    t.valid && overlap && exists ms, i: nat :: HoldsEvent(ms, t.eventNs) && i < |d.times| && Usable(d.times, d.safe, ms, tolerance, i)
  }

  lemma AlignedMeansUsed(d: Dataset, tolerance: int, overlap: bool, t: Trade)
    requires d.Valid()
    ensures FateOf(d, tolerance, overlap, t).Aligned? <==> Used(d, tolerance, overlap, t)
  {
    var ms := t.eventNs / MS_TO_NS;
    assert HoldsEvent(ms, t.eventNs);
    UsableMeansMatches(d.times, d.safe, ms, tolerance);
    if t.valid && overlap {
      var m := MatchOf(d.times, d.safe, t.eventNs, tolerance);
      if m.Some? { assert Usable(d.times, d.safe, ms, tolerance, m.value); }
      if ms', i: nat :| HoldsEvent(ms', t.eventNs) && i < |d.times| && Usable(d.times, d.safe, ms', tolerance, i) {
        assert ms' == ms;
        assert Matches(d.times, d.safe, ms, tolerance, i);
      }
    }
  }

  lemma {:induction false} CountSelected(d: Dataset, tolerance: int, overlap: bool, c: Class, p: Trade -> bool, n: nat)
    requires d.Valid() && n <= |d.trades|
    requires forall t :: t in d.trades ==> (p(t) <==> Selects(c, t, FateOf(d, tolerance, overlap, t)))
    ensures Count(d, tolerance, overlap, c, n) == |Filter(d.trades[..n], p)|
    ensures Volume(d, tolerance, overlap, c, n) == Sum(Filter(d.trades[..n], p), SizeOf)
  {
    if n > 0 {
      CountSelected(d, tolerance, overlap, c, p, n - 1);
      assert d.trades[..n] == d.trades[..n - 1] + [d.trades[n - 1]];
      SelectedSnoc(d.trades[..n - 1], d.trades[n - 1], p, SizeOf);
    }
  }

  /** A missing size counts as zero. */
  function Contracts(): Trade -> int { (t: Trade) => match t.size case None => 0 case Some(size) => size }

  lemma AllSelected(d: Dataset, tolerance: int, overlap: bool, c: Class, p: Trade -> bool)
    requires d.Valid() && forall t :: t in d.trades ==> (p(t) <==> Selects(c, t, FateOf(d, tolerance, overlap, t)))
    ensures Count(d, tolerance, overlap, c, |d.trades|) == |Filter(d.trades, p)|
    ensures Volume(d, tolerance, overlap, c, |d.trades|) == Sum(Filter(d.trades, p), Contracts())
  {
    CountSelected(d, tolerance, overlap, c, p, |d.trades|);
    assert d.trades[..|d.trades|] == d.trades;
    SumEqual(Filter(d.trades, p), SizeOf, Contracts());
  }

  /** Totals of the report: all trades, and those a usable quote was found for. */
  lemma TotalsMean(d: Dataset, tolerance: int, overlap: bool, limit: int, m: Metrics, used: Trade -> bool)
    requires d.Valid() && Exact(d, tolerance, overlap, limit, m, |d.trades|)
    requires forall t :: used(t) <==> Used(d, tolerance, overlap, t)
    ensures m.tradesTotal == |d.trades| && m.volumeTotal == Sum(d.trades, Contracts())
    ensures m.aligned == |Filter(d.trades, used)| && m.alignedVolume == Sum(Filter(d.trades, used), Contracts())
  {
    var any := (t: Trade) => true;
    AllSelected(d, tolerance, overlap, All, any);
    FilterAll(d.trades, any);
    forall t | t in d.trades ensures used(t) <==> Selects(IsAligned, t, FateOf(d, tolerance, overlap, t)) {
      AlignedMeansUsed(d, tolerance, overlap, t);
    }
    AllSelected(d, tolerance, overlap, IsAligned, used);
  }

  /** Each hourly entry counts the valid trades of that hour of the day, and those of them that were used. */
  lemma HoursMean(d: Dataset, tolerance: int, overlap: bool, limit: int, m: Metrics, h: int, atHour: Trade -> bool, usedAtHour: Trade -> bool)
    requires d.Valid() && Exact(d, tolerance, overlap, limit, m, |d.trades|) && 0 <= h < 24
    requires forall t :: atHour(t) <==> t.valid && AtHour(t.eventNs, h)
    requires forall t :: usedAtHour(t) <==> Used(d, tolerance, overlap, t) && AtHour(t.eventNs, h)
    ensures GetOr(m.byHour, h, Hour(0, 0)) == Hour(|Filter(d.trades, atHour)|, |Filter(d.trades, usedAtHour)|)
  {
    forall t | t in d.trades
      ensures atHour(t) <==> Selects(InHour(h), t, FateOf(d, tolerance, overlap, t))
      ensures usedAtHour(t) <==> Selects(AlignedInHour(h), t, FateOf(d, tolerance, overlap, t))
    {
      HourIsOfDay(t, h);
      AlignedMeansUsed(d, tolerance, overlap, t);
    }
    AllSelected(d, tolerance, overlap, InHour(h), atHour);
    AllSelected(d, tolerance, overlap, AlignedInHour(h), usedAtHour);
  }

  /** Trades of unknown aggressor: the valid ones marked so. */
  lemma UnknownsMean(d: Dataset, tolerance: int, overlap: bool, limit: int, m: Metrics)
    requires d.Valid() && Exact(d, tolerance, overlap, limit, m, |d.trades|)
    ensures var unknown := (t: Trade) => t.valid && t.aggressor == "UNKNOWN";
            m.unknownCount == |Filter(d.trades, unknown)| && m.unknownVolume == Sum(Filter(d.trades, unknown), Contracts())
  {
    AllSelected(d, tolerance, overlap, Unknown, (t: Trade) => t.valid && t.aggressor == "UNKNOWN");
  }

  /** Why a trade was not used, in the order of the checks: invalid, no overlap, or the reason that holds of the quotes. */
  ghost predicate LostTo(d: Dataset, tolerance: int, overlap: bool, t: Trade, r: Reason)
    requires d.Valid()
  {
    match r
    case InvalidTrade => !t.valid
    case NoOverlapWindow => t.valid && !overlap
    case _ => t.valid && overlap && exists ms :: HoldsEvent(ms, t.eventNs) && ReasonHolds(d.times, d.safe, ms, tolerance, r)
  }

  lemma LostMeansReason(d: Dataset, tolerance: int, overlap: bool, t: Trade, r: Reason)
    requires d.Valid()
    ensures FateOf(d, tolerance, overlap, t) == Lost(r) <==> LostTo(d, tolerance, overlap, t, r)
  {
    var ms := t.eventNs / MS_TO_NS;
    assert HoldsEvent(ms, t.eventNs);
    assert forall ms' :: HoldsEvent(ms', t.eventNs) ==> ms' == ms;
    ReasonsPartitionFailures(d.times, d.safe, ms, tolerance);
  }

  /** Each reason's count and volume are those of the trades lost to it. */
  lemma LossesMean(d: Dataset, tolerance: int, overlap: bool, limit: int, m: Metrics, r: Reason, lost: Trade -> bool)
    requires d.Valid() && Exact(d, tolerance, overlap, limit, m, |d.trades|)
    requires forall t :: lost(t) <==> LostTo(d, tolerance, overlap, t, r)
    ensures GetOr(m.countByReason, r, 0) == |Filter(d.trades, lost)|
    ensures GetOr(m.volumeByReason, r, 0) == Sum(Filter(d.trades, lost), Contracts())
  {
    forall t | t in d.trades ensures lost(t) <==> Selects(HasReason(r), t, FateOf(d, tolerance, overlap, t)) {
      LostMeansReason(d, tolerance, overlap, t, r);
    }
    AllSelected(d, tolerance, overlap, HasReason(r), lost);
  }

  /** Each diagnostic entry counts the trades that would be used at its tolerance. */
  lemma DiagnosticsMean(d: Dataset, tolerances: seq<int>, overlap: bool, diagnostics: map<int, Rate>, at: int, used: Trade -> bool)
    requires d.Valid() && DiagnosticsExact(d, tolerances, overlap, diagnostics) && at in diagnostics
    requires forall t :: used(t) <==> Used(d, at, true, t)
    ensures diagnostics[at] == Rate(|Filter(d.trades, used)|, Sum(Filter(d.trades, used), Contracts()))
  {
    forall t | t in d.trades ensures used(t) <==> Selects(IsAligned, t, FateOf(d, at, true, t)) {
      AlignedMeansUsed(d, at, true, t);
    }
    AllSelected(d, at, true, IsAligned, used);
  }
}
