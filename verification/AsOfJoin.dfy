/**
 * The backward as-of join between CME events and MT5 quotes: a quote may be matched only if it is
 * not later than the event, not older than the tolerance, and marked safe to join.
 */
module AsOfJoin {
  import opened Sequences
  import opened Units

  ghost predicate NonDecreasing(times: seq<int>) {
    forall i, j :: 0 <= i <= j < |times| ==> times[i] <= times[j]
  }

  // ----- the brute-force specification

  predicate Prior(times: seq<int>, eventMs: int, i: nat)
    requires i < |times|
  {
    times[i] <= eventMs
  }

  predicate Within(times: seq<int>, eventMs: int, tolerance: int, i: nat)
    requires i < |times|
  {
    times[i] <= eventMs && eventMs - times[i] <= tolerance
  }

  predicate Matches(times: seq<int>, safe: seq<bool>, eventMs: int, tolerance: int, i: nat)
    requires i < |times| == |safe|
  {
    Within(times, eventMs, tolerance, i) && safe[i]
  }

  /** The greatest matching index, found by looking at every quote. */
  function BestMatch(times: seq<int>, safe: seq<bool>, eventMs: int, tolerance: int): (r: Option<nat>)
    requires |times| == |safe|
    ensures r.Some? ==> r.value < |times| && Matches(times, safe, eventMs, tolerance, r.value)
    ensures r.Some? ==> forall i :: r.value < i < |times| ==> !Matches(times, safe, eventMs, tolerance, i)
    ensures r.None? ==> forall i :: 0 <= i < |times| ==> !Matches(times, safe, eventMs, tolerance, i)
  {
    BestBelow(times, safe, eventMs, tolerance, |times|)
  }

  function BestBelow(times: seq<int>, safe: seq<bool>, eventMs: int, tolerance: int, n: nat): (r: Option<nat>)
    requires n <= |times| == |safe|
    ensures r.Some? ==> r.value < n && Matches(times, safe, eventMs, tolerance, r.value)
    ensures r.Some? ==> forall i :: r.value < i < n ==> !Matches(times, safe, eventMs, tolerance, i)
    ensures r.None? ==> forall i :: 0 <= i < n ==> !Matches(times, safe, eventMs, tolerance, i)
  {
    if n == 0 then None
    else if Matches(times, safe, eventMs, tolerance, n - 1) then Some(n - 1)
    else BestBelow(times, safe, eventMs, tolerance, n - 1)
  }

  // ----- bisect_right

  method BisectRight(times: seq<int>, x: int) returns (upper: nat)
    requires NonDecreasing(times)
    ensures upper <= |times|
    ensures forall i :: 0 <= i < upper ==> times[i] <= x
    ensures forall i :: upper <= i < |times| ==> x < times[i]
  {
    var lo, hi := 0, |times|;
    while lo < hi
      invariant 0 <= lo <= hi <= |times|
      invariant forall i :: 0 <= i < lo ==> times[i] <= x
      invariant forall i :: hi <= i < |times| ==> x < times[i]
    {
      var mid := (lo + hi) / 2;
      if x < times[mid] { hi := mid; } else { lo := mid + 1; }
    }
    return lo;
  }

  // ----- alignment_contract.py

  /** Construction refuses columns of unequal length and times that go backwards. */
  datatype QuoteSlice = QuoteSlice(times: seq<int>, mid: seq<Option<real>>, spread: seq<Option<real>>, safe: seq<bool>)
  {
    ghost predicate Valid() {
      |times| == |mid| == |spread| == |safe| && NonDecreasing(times)
    }
  }

  datatype AlignError = UnequalLengths | TimesDecrease | BadTolerance | NegativeEventTime

  datatype Alignment = Alignment(row: nat, eventNs: int, quote: Option<MatchedQuote>)

  datatype MatchedQuote = MatchedQuote(time: int, mid: Option<real>, spread: Option<real>, deltaMs: int)

  method MakeSlice(times: seq<int>, mid: seq<Option<real>>, spread: seq<Option<real>>, safe: seq<bool>)
    returns (r: Result<QuoteSlice, AlignError>)
    ensures r.Ok? <==> QuoteSlice(times, mid, spread, safe).Valid()
    ensures r.Ok? ==> r.value == QuoteSlice(times, mid, spread, safe)
    ensures r.Err? ==> r.error == if |times| == |mid| == |spread| == |safe| then TimesDecrease else UnequalLengths
  {
    if !(|mid| == |times| && |spread| == |times| && |safe| == |times|) {
      return Err(UnequalLengths);
    }
    var prev: Option<int> := None;
    for i := 0 to |times|
      invariant prev == if i == 0 then None else Some(times[i - 1])
      invariant forall a, b :: 0 <= a <= b < i ==> times[a] <= times[b]
    {
      if prev.Some? && times[i] < prev.value { return Err(TimesDecrease); }
      prev := Some(times[i]);
    }
    return Ok(QuoteSlice(times, mid, spread, safe));
  }

  function QuoteAt(q: QuoteSlice, eventMs: int, i: nat): MatchedQuote
    requires q.Valid() && i < |q.times|
  {
    MatchedQuote(q.times[i], q.mid[i], q.spread[i], eventMs - q.times[i])
  }

  /** What align_one promises, stated with the brute-force search. */
  function AlignSpec(eventNs: int, q: QuoteSlice, tolerance: int, row: nat): Result<Alignment, AlignError>
    requires q.Valid()
  {
    if tolerance <= 0 then Err(BadTolerance)
    else if eventNs < 0 then Err(NegativeEventTime)
    else
      var eventMs := eventNs / MS_TO_NS;
      var m := BestMatch(q.times, q.safe, eventMs, tolerance);
      Ok(Alignment(row, eventNs, if m.None? then None else Some(QuoteAt(q, eventMs, m.value))))
  }

  method AlignOne(eventNs: int, q: QuoteSlice, tolerance: int, row: nat) returns (r: Result<Alignment, AlignError>)
    requires q.Valid()
    ensures r == AlignSpec(eventNs, q, tolerance, row)
  {
    if tolerance <= 0 { return Err(BadTolerance); }
    if eventNs < 0 { return Err(NegativeEventTime); }
    var eventMs := eventNs / MS_TO_NS;
    var upper := BisectRight(q.times, eventMs);
    var i: nat := upper;
    while i > 0
      invariant i <= upper
      invariant forall k :: i <= k < |q.times| ==> !Matches(q.times, q.safe, eventMs, tolerance, k)
    {
      var delta := eventMs - q.times[i - 1];
      if delta > tolerance { break; }
      i := i - 1;
      if !q.safe[i] { continue; }
      var best := BestMatch(q.times, q.safe, eventMs, tolerance);
      assert Matches(q.times, q.safe, eventMs, tolerance, i);
      assert best == Some(i);
      return Ok(Alignment(row, eventNs, Some(MatchedQuote(q.times[i], q.mid[i], q.spread[i], delta))));
    }
    return Ok(Alignment(row, eventNs, None));
  }

  /** The k-th event is the first that cannot be aligned, and this is its error. */
  ghost predicate FirstErrorAt(events: seq<int>, q: QuoteSlice, tolerance: int, k: nat, e: AlignError)
    requires q.Valid()
  {
    && k < |events| && AlignSpec(events[k], q, tolerance, k) == Err(e)
    && forall m :: 0 <= m < k ==> AlignSpec(events[m], q, tolerance, m).Ok?
  }

  /** One result per event, in order, and the first error wins. */
  method AlignMany(events: seq<int>, q: QuoteSlice, tolerance: int) returns (r: Result<seq<Alignment>, AlignError>)
    requires q.Valid()
    ensures r.Ok? ==> |r.value| == |events|
    ensures r.Ok? ==> forall k :: 0 <= k < |events| ==> AlignSpec(events[k], q, tolerance, k) == Ok(r.value[k])
    ensures r.Err? <==> exists k :: 0 <= k < |events| && AlignSpec(events[k], q, tolerance, k).Err?
    ensures r.Err? ==> exists k: nat :: FirstErrorAt(events, q, tolerance, k, r.error)
  {
    var out: seq<Alignment> := [];
    for i := 0 to |events|
      invariant |out| == i
      invariant forall k :: 0 <= k < i ==> AlignSpec(events[k], q, tolerance, k) == Ok(out[k])
    {
      var a := AlignOne(events[i], q, tolerance, i);
      if a.Err? {
        assert FirstErrorAt(events, q, tolerance, i, a.error);
        return Err(a.error);
      }
      out := out + [a.value];
    }
    return Ok(out);
  }

  // ----- alignment_quality.py

  datatype Reason = NoQuotes | NoPriorQuote | OutsideTolerance | NotJoinSafe | NoOverlapWindow | InvalidTrade

  datatype EventMatch = Matched(index: nat, deltaMs: int) | Unmatched(reason: Reason)

  /** Which of the four reasons applies, stated over the quotes and not over the scan. */
  ghost predicate ReasonHolds(times: seq<int>, safe: seq<bool>, eventMs: int, tolerance: int, reason: Reason)
    requires |times| == |safe|
  {
    match reason
    case NoQuotes => times == []
    case NoPriorQuote => times != [] && forall i :: 0 <= i < |times| ==> !Prior(times, eventMs, i)
    case OutsideTolerance =>
      && (exists i :: 0 <= i < |times| && Prior(times, eventMs, i))
      && (forall i :: 0 <= i < |times| ==> !Within(times, eventMs, tolerance, i))
    case NotJoinSafe =>
      && (exists i :: 0 <= i < |times| && Within(times, eventMs, tolerance, i))
      && (forall i :: 0 <= i < |times| ==> !Matches(times, safe, eventMs, tolerance, i))
    case _ => false
  }

  function MatchOf(times: seq<int>, safe: seq<bool>, eventNs: int, tolerance: int): Option<nat>
    requires |times| == |safe|
  {
    BestMatch(times, safe, eventNs / MS_TO_NS, tolerance)
  }

  method AlignOneEvent(eventNs: int, times: seq<int>, safe: seq<bool>, tolerance: int) returns (r: EventMatch)
    requires |times| == |safe| && NonDecreasing(times)
    ensures r.Matched? <==> MatchOf(times, safe, eventNs, tolerance).Some?
    ensures r.Matched? ==> MatchOf(times, safe, eventNs, tolerance) == Some(r.index)
    ensures r.Matched? ==> r.deltaMs == eventNs / MS_TO_NS - times[r.index]
    ensures r.Unmatched? ==> ReasonHolds(times, safe, eventNs / MS_TO_NS, tolerance, r.reason)
  {
    if |times| == 0 { return Unmatched(NoQuotes); }
    var eventMs := eventNs / MS_TO_NS;
    var upper := BisectRight(times, eventMs);
    if upper == 0 { return Unmatched(NoPriorQuote); }
    assert Prior(times, eventMs, upper - 1);
    var sawWithin, sawUnsafe := false, false;
    var i: nat := upper;
    while i > 0
      invariant i <= upper
      invariant forall k :: i <= k < |times| ==> !Matches(times, safe, eventMs, tolerance, k)
      invariant forall k :: i <= k < upper ==> Within(times, eventMs, tolerance, k)
      invariant sawWithin == sawUnsafe == (i < upper)
    {
      var delta := eventMs - times[i - 1];
      if delta > tolerance { break; }
      i := i - 1;
      sawWithin := true;
      if safe[i] {
        assert Matches(times, safe, eventMs, tolerance, i);
        return Matched(i, delta);
      }
      sawUnsafe := true;
    }
    if sawWithin && sawUnsafe {
      assert Within(times, eventMs, tolerance, upper - 1);
      return Unmatched(NotJoinSafe);
    }
    return Unmatched(OutsideTolerance);
  }

  /** The reasons exclude one another and together cover exactly the events without a match. */
  lemma ReasonsPartitionFailures(times: seq<int>, safe: seq<bool>, eventMs: int, tolerance: int)
    requires |times| == |safe|
    ensures BestMatch(times, safe, eventMs, tolerance).Some? ==>
              forall reason :: !ReasonHolds(times, safe, eventMs, tolerance, reason)
    ensures BestMatch(times, safe, eventMs, tolerance).None? ==>
              exists reason :: ReasonHolds(times, safe, eventMs, tolerance, reason)
    ensures forall a, b :: ReasonHolds(times, safe, eventMs, tolerance, a) && ReasonHolds(times, safe, eventMs, tolerance, b) ==> a == b
  {
    var best := BestMatch(times, safe, eventMs, tolerance);
    if best.Some? {
      assert Matches(times, safe, eventMs, tolerance, best.value);
      assert Within(times, eventMs, tolerance, best.value) && Prior(times, eventMs, best.value);
    } else if times == [] {
      assert ReasonHolds(times, safe, eventMs, tolerance, NoQuotes);
    } else if forall i :: 0 <= i < |times| ==> !Prior(times, eventMs, i) {
      assert ReasonHolds(times, safe, eventMs, tolerance, NoPriorQuote);
    } else if exists i :: 0 <= i < |times| && Within(times, eventMs, tolerance, i) {
      assert ReasonHolds(times, safe, eventMs, tolerance, NotJoinSafe);
    } else {
      assert ReasonHolds(times, safe, eventMs, tolerance, OutsideTolerance);
    }
    forall i | 0 <= i < |times| && Within(times, eventMs, tolerance, i) ensures Prior(times, eventMs, i) {
    }
  }

  /** The feature-side join and the report-side join select the same quote at the same distance. */
  lemma BothJoinsAgree(eventNs: int, q: QuoteSlice, tolerance: int, row: nat)
    requires q.Valid() && tolerance > 0 && eventNs >= 0
    ensures var a, m := AlignSpec(eventNs, q, tolerance, row), MatchOf(q.times, q.safe, eventNs, tolerance);
            && a.Ok?
            && (a.value.quote.Some? <==> m.Some?)
            && (m.Some? ==> a.value.quote == Some(QuoteAt(q, eventNs / MS_TO_NS, m.value)))
            && (m.Some? ==> 0 <= a.value.quote.value.deltaMs <= tolerance)
  {
  }

  /** A quote at or after the next millisecond is invisible: future quotes never change a match. */
  lemma FutureQuotesIgnored(times: seq<int>, safe: seq<bool>, later: seq<int>, laterSafe: seq<bool>, eventMs: int, tolerance: int)
    requires |times| == |safe| && |later| == |laterSafe|
    requires forall i :: 0 <= i < |later| ==> eventMs < later[i]
    ensures BestMatch(times + later, safe + laterSafe, eventMs, tolerance) == BestMatch(times, safe, eventMs, tolerance)
  {
    var a, b := BestMatch(times + later, safe + laterSafe, eventMs, tolerance), BestMatch(times, safe, eventMs, tolerance);
    forall i | 0 <= i < |times| + |later|
      ensures Matches(times + later, safe + laterSafe, eventMs, tolerance, i) <==> i < |times| && Matches(times, safe, eventMs, tolerance, i)
    {
    }
    if b.Some? {
      assert Matches(times + later, safe + laterSafe, eventMs, tolerance, b.value);
    }
  }

  /** Widening the tolerance keeps every match, at the same index. */
  lemma WideningKeepsMatches(times: seq<int>, safe: seq<bool>, eventMs: int, narrow: int, wide: int)
    requires |times| == |safe| && NonDecreasing(times) && narrow <= wide
    requires BestMatch(times, safe, eventMs, narrow).Some?
    ensures BestMatch(times, safe, eventMs, wide) == BestMatch(times, safe, eventMs, narrow)
  {
    var a, b := BestMatch(times, safe, eventMs, narrow), BestMatch(times, safe, eventMs, wide);
    assert Matches(times, safe, eventMs, wide, a.value);
    assert b.Some? && a.value <= b.value;
    assert times[a.value] <= times[b.value];
    assert Matches(times, safe, eventMs, narrow, b.value);
  }

  // ----- the join, read from the columns

  /** This millisecond holds the event. */
  ghost predicate HoldsEvent(ms: int, eventNs: int) { ms * 1_000_000 <= eventNs < (ms + 1) * 1_000_000 }

  /** Quote i may be used for an event in this millisecond: safe, not later, and at most the tolerance older. */
  ghost predicate Usable(times: seq<int>, safe: seq<bool>, ms: int, tolerance: int, i: nat)
    requires i < |times| == |safe|
  {
    safe[i] && 0 <= ms - times[i] <= tolerance
  }

  /** Quote i is usable, no later one is, and the match carries its columns and its distance. */
  ghost predicate IsLastUsable(q: QuoteSlice, ms: int, tolerance: int, i: nat, m: MatchedQuote)
    requires q.Valid()
  {
    && i < |q.times| && Usable(q.times, q.safe, ms, tolerance, i)
    && (forall j :: i < j < |q.times| ==> !Usable(q.times, q.safe, ms, tolerance, j))
    && m.time == q.times[i] && m.mid == q.mid[i] && m.spread == q.spread[i] && m.deltaMs == ms - q.times[i]
  }

  /** The aligned quote carries the columns of the last usable quote and its distance; without one there is none. */
  lemma AlignedQuoteIsLastUsable(eventNs: int, q: QuoteSlice, tolerance: int, row: nat, ms: int)
    requires q.Valid() && HoldsEvent(ms, eventNs)
    ensures AlignSpec(eventNs, q, tolerance, row).Ok? <==> tolerance > 0 && eventNs >= 0
    ensures AlignSpec(eventNs, q, tolerance, row).Ok? ==>
      var a := AlignSpec(eventNs, q, tolerance, row).value;
      && a.row == row && a.eventNs == eventNs
      && (a.quote.None? <==> forall i :: 0 <= i < |q.times| ==> !Usable(q.times, q.safe, ms, tolerance, i))
      && (a.quote.Some? ==> exists i: nat :: IsLastUsable(q, ms, tolerance, i, a.quote.value))
  {
    assert eventNs / MS_TO_NS == ms;
    UsableMeansMatches(q.times, q.safe, ms, tolerance);
    var m := BestMatch(q.times, q.safe, ms, tolerance);
    if m.Some? && tolerance > 0 && eventNs >= 0 {
      assert IsLastUsable(q, ms, tolerance, m.value, AlignSpec(eventNs, q, tolerance, row).value.quote.value);
    }
  }

  lemma UsableMeansMatches(times: seq<int>, safe: seq<bool>, ms: int, tolerance: int)
    requires |times| == |safe|
    ensures forall i :: 0 <= i < |times| ==> (Matches(times, safe, ms, tolerance, i) <==> Usable(times, safe, ms, tolerance, i))
  {
  }

  /** Each reason in terms of the quotes' times and flags alone. */
  lemma ReasonsMean(times: seq<int>, safe: seq<bool>, ms: int, tolerance: int)
    requires |times| == |safe| && tolerance >= 0
    ensures ReasonHolds(times, safe, ms, tolerance, NoQuotes) <==> times == []
    ensures ReasonHolds(times, safe, ms, tolerance, NoPriorQuote) <==> times != [] && forall i :: 0 <= i < |times| ==> ms < times[i]
    ensures ReasonHolds(times, safe, ms, tolerance, OutsideTolerance) <==>
              (exists i :: 0 <= i < |times| && times[i] <= ms) && forall i :: 0 <= i < |times| ==> times[i] > ms || times[i] < ms - tolerance
    ensures ReasonHolds(times, safe, ms, tolerance, NotJoinSafe) <==>
              && (exists i :: 0 <= i < |times| && ms - tolerance <= times[i] <= ms)
              && forall i :: 0 <= i < |times| && ms - tolerance <= times[i] <= ms ==> !safe[i]
  {
    forall i | 0 <= i < |times|
      ensures Prior(times, ms, i) <==> times[i] <= ms
      ensures Within(times, ms, tolerance, i) <==> ms - tolerance <= times[i] <= ms
      ensures Matches(times, safe, ms, tolerance, i) <==> ms - tolerance <= times[i] <= ms && safe[i]
    {
    }
  }
}
