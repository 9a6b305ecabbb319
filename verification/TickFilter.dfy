/**
 * Per-symbol suppression of repeated quotes. The filter keeps a counter and two timestamps per
 * symbol; the specification keeps the whole run of suppressed ticks, and every history of calls
 * is shown to be a lossless run-length code.
 */
module TickFilter {
  import opened Sequences

  const DEFAULT_HEARTBEAT_MAX_GAP_MS: int := 1000

  /** Round half to even. */
  function Round(x: real): (r: int)
    ensures -0.5 <= x - r as real <= 0.5
    ensures x - r as real == 0.5 || x - r as real == -0.5 ==> r % 2 == 0
  {
    var f := x.Floor;
    var part := x - f as real;
    if part < 0.5 || (part == 0.5 && f % 2 == 0) then f else f + 1
  }

  /** A missing price scales to zero. */
  function ScalePrice(price: Option<real>, scale: int): int {
    if price.None? then 0 else Round(price.value * scale as real)
  }

  /** The value of a price field: a missing price counts as zero. */
  function Value(price: Option<real>): real { if price.Some? then price.value else 0.0 }

  /** Scaled to the nearest whole step, halves to even. */
  ghost predicate NearestStep(price: Option<real>, scale: int, scaled: int) {
    var error := Value(price) * scale as real - scaled as real;
    -0.5 <= error <= 0.5 && (error == 0.5 || error == -0.5 ==> scaled % 2 == 0)
  }

  lemma ScaledIsNearest(price: Option<real>, scale: int)
    ensures NearestStep(price, scale, ScalePrice(price, scale))
  {
    if price.None? { assert 0.0 * scale as real == 0.0; }
  }

  datatype Tick = Tick(symbol: string, timeMsc: int, recv: int, monotonicNs: int,
                       bid: Option<real>, ask: Option<real>, last: Option<real>, volume: int, flags: int, spreadPoints: int)

  /** The five fields whose change makes a tick worth emitting. */
  datatype Quote = Quote(bid: int, ask: int, last: int, volume: int, flags: int)

  function QuoteOf(t: Tick, scale: int): Quote {
    Quote(ScalePrice(t.bid, scale), ScalePrice(t.ask, scale), ScalePrice(t.last, scale), t.volume, t.flags)
  }

  /** The three prices of the tick, each scaled to the nearest step, with its own volume and flags. */
  ghost predicate ScaledFrom(q: Quote, t: Tick, scale: int) {
    && NearestStep(t.bid, scale, q.bid) && NearestStep(t.ask, scale, q.ask) && NearestStep(t.last, scale, q.last)
    && q.volume == t.volume && q.flags == t.flags
  }

  lemma QuoteIsScaled(t: Tick, scale: int)
    ensures ScaledFrom(QuoteOf(t, scale), t, scale)
  {
    ScaledIsNearest(t.bid, scale);
    ScaledIsNearest(t.ask, scale);
    ScaledIsNearest(t.last, scale);
  }

  /** Two prices no further apart than one step of the scale. */
  ghost predicate WithinStep(x: Option<real>, y: Option<real>, scale: int) {
    -1.0 <= Value(x) * scale as real - Value(y) * scale as real <= 1.0
  }

  /** Nothing that matters differs: prices within one step, the same volume and flags. */
  ghost predicate SameWithinStep(a: Tick, b: Tick, scale: int) {
    && WithinStep(a.bid, b.bid, scale) && WithinStep(a.ask, b.ask, scale) && WithinStep(a.last, b.last, scale)
    && a.volume == b.volume && a.flags == b.flags
  }

  lemma EqualQuotesAreClose(a: Tick, b: Tick, scale: int)
    requires QuoteOf(a, scale) == QuoteOf(b, scale)
    ensures SameWithinStep(a, b, scale)
  {
    QuoteIsScaled(a, scale);
    QuoteIsScaled(b, scale);
  }

  datatype FilteredEvent = FilteredEvent(tick: Tick, quote: Quote, suppressedCount: nat,
                                         firstSuppressed: Option<int>, lastSuppressed: Option<int>, duplicateReason: bool)

  // ----- specification

  datatype Emission = Emission(quote: Quote, timeMsc: int)

  /** The last emission of a symbol and the receive times of everything suppressed since. */
  datatype Channel = Channel(last: Option<Emission>, pending: seq<int>)

  datatype Filtering = Filtering(scale: int, gap: int)

  ghost predicate Emits(f: Filtering, ch: Channel, t: Tick) {
    ch.last.None? || QuoteOf(t, f.scale) != ch.last.value.quote || t.timeMsc - ch.last.value.timeMsc >= f.gap
  }

  ghost function FirstOf(s: seq<int>): Option<int> { if s == [] then None else Some(s[0]) }
  ghost function LastOf(s: seq<int>): Option<int> { if s == [] then None else Some(s[|s| - 1]) }

  ghost function EventFor(f: Filtering, ch: Channel, t: Tick): FilteredEvent {
    FilteredEvent(t, QuoteOf(t, f.scale), |ch.pending|, FirstOf(ch.pending), LastOf(ch.pending), ch.pending != [])
  }

  ghost function Advance(f: Filtering, ch: Channel, t: Tick): Channel {
    if Emits(f, ch, t) then Channel(Some(Emission(QuoteOf(t, f.scale), t.timeMsc)), [])
    else ch.(pending := ch.pending + [t.recv])
  }

  /** The channel after the ticks of one symbol. */
  ghost function Run(f: Filtering, ts: seq<Tick>): Channel {
    if ts == [] then Channel(None, []) else Advance(f, Run(f, ts[..|ts| - 1]), ts[|ts| - 1])
  }

  ghost function Emitted(f: Filtering, ts: seq<Tick>): seq<FilteredEvent> {
    if ts == [] then []
    else
      var init, t := ts[..|ts| - 1], ts[|ts| - 1];
      Emitted(f, init) + if Emits(f, Run(f, init), t) then [EventFor(f, Run(f, init), t)] else []
  }

  ghost function OfSymbol(ts: seq<Tick>, symbol: string): seq<Tick> {
    if ts == [] then []
    else OfSymbol(ts[..|ts| - 1], symbol) + if ts[|ts| - 1].symbol == symbol then [ts[|ts| - 1]] else []
  }

  ghost function EventsOf(es: seq<FilteredEvent>, symbol: string): seq<FilteredEvent> {
    if es == [] then []
    else EventsOf(es[..|es| - 1], symbol) + if es[|es| - 1].tick.symbol == symbol then [es[|es| - 1]] else []
  }

  // ----- the filter

  datatype SymbolState = SymbolState(
    lastBid: Option<int>, lastAsk: Option<int>, lastLast: Option<int>, lastVolume: Option<int>, lastFlags: Option<int>,
    lastTimeMsc: Option<int>, suppressedCount: nat, firstSuppressed: Option<int>, lastSuppressed: Option<int>)

  const FRESH_STATE: SymbolState := SymbolState(None, None, None, None, None, None, 0, None, None)

  ghost predicate Represents(st: SymbolState, ch: Channel) {
    && st.suppressedCount == |ch.pending|
    && st.firstSuppressed == FirstOf(ch.pending) && st.lastSuppressed == LastOf(ch.pending)
    && match ch.last
       case None => st.(suppressedCount := 0, firstSuppressed := None, lastSuppressed := None) == FRESH_STATE
       case Some(e) =>
         && st.lastBid == Some(e.quote.bid) && st.lastAsk == Some(e.quote.ask) && st.lastLast == Some(e.quote.last)
         && st.lastVolume == Some(e.quote.volume) && st.lastFlags == Some(e.quote.flags) && st.lastTimeMsc == Some(e.timeMsc)
  }

  function StateFor(states: map<string, SymbolState>, symbol: string): SymbolState {
    if symbol in states then states[symbol] else FRESH_STATE
  }

  /** The entry of a symbol stands for the run of its own ticks, and its events are that run's. */
  ghost predicate Tracks(f: Filtering, states: map<string, SymbolState>, seen: seq<Tick>, emitted: seq<FilteredEvent>, symbol: string) {
    && Represents(StateFor(states, symbol), Run(f, OfSymbol(seen, symbol)))
    && EventsOf(emitted, symbol) == Emitted(f, OfSymbol(seen, symbol))
  }

  ghost function Recorded(emitted: seq<FilteredEvent>, event: Option<FilteredEvent>): seq<FilteredEvent> {
    if event.Some? then emitted + [event.value] else emitted
  }

  lemma RecordedEvents(emitted: seq<FilteredEvent>, event: Option<FilteredEvent>, symbol: string)
    ensures EventsOf(Recorded(emitted, event), symbol)
         == EventsOf(emitted, symbol) + if event.Some? && event.value.tick.symbol == symbol then [event.value] else []
  {
    if event.Some? { EventsOfSnoc(emitted, event.value, symbol); }
  }

  /** A tick moves the run of its own symbol on and leaves every other run alone. */
  lemma TickTracked(f: Filtering, states: map<string, SymbolState>, seen: seq<Tick>, emitted: seq<FilteredEvent>,
                    t: Tick, st: SymbolState, event: Option<FilteredEvent>, symbol: string)
    requires Tracks(f, states, seen, emitted, symbol)
    requires Follows(f, Run(f, OfSymbol(seen, t.symbol)), t, st, event)
    ensures Tracks(f, states[t.symbol := st], seen + [t], Recorded(emitted, event), symbol)
  {
    OfSymbolSnoc(seen, t, symbol);
    RecordedEvents(emitted, event, symbol);
    if symbol == t.symbol { RunSnoc(f, OfSymbol(seen, symbol), t); }
  }

  /** The entry and the event that one tick leaves behind. */
  ghost predicate Follows(f: Filtering, ch: Channel, t: Tick, st: SymbolState, event: Option<FilteredEvent>) {
    Represents(st, Advance(f, ch, t)) && event == if Emits(f, ch, t) then Some(EventFor(f, ch, t)) else None
  }

  lemma OfSymbolSnoc(seen: seq<Tick>, t: Tick, symbol: string)
    ensures OfSymbol(seen + [t], symbol) == if t.symbol == symbol then OfSymbol(seen, symbol) + [t] else OfSymbol(seen, symbol)
  {
    assert (seen + [t])[..|seen|] == seen;
  }

  lemma EventsOfSnoc(emitted: seq<FilteredEvent>, e: FilteredEvent, symbol: string)
    ensures EventsOf(emitted + [e], symbol) == if e.tick.symbol == symbol then EventsOf(emitted, symbol) + [e] else EventsOf(emitted, symbol)
  {
    assert (emitted + [e])[..|emitted|] == emitted;
  }

  lemma RunSnoc(f: Filtering, ts: seq<Tick>, t: Tick)
    ensures Run(f, ts + [t]) == Advance(f, Run(f, ts), t)
    ensures Emitted(f, ts + [t]) == if Emits(f, Run(f, ts), t) then Emitted(f, ts) + [EventFor(f, Run(f, ts), t)] else Emitted(f, ts)
  {
    assert (ts + [t])[..|ts|] == ts;
  }

  ghost predicate TracksAll(f: Filtering, states: map<string, SymbolState>, seen: seq<Tick>, emitted: seq<FilteredEvent>) {
    forall s: string :: Tracks(f, states, seen, emitted, s)
  }

  lemma AllTracked(f: Filtering, states: map<string, SymbolState>, seen: seq<Tick>, emitted: seq<FilteredEvent>,
                   t: Tick, st: SymbolState, event: Option<FilteredEvent>)
    requires TracksAll(f, states, seen, emitted)
    requires Follows(f, Run(f, OfSymbol(seen, t.symbol)), t, st, event)
    ensures TracksAll(f, states[t.symbol := st], seen + [t], Recorded(emitted, event))
  {
    var after, next, more := states[t.symbol := st], seen + [t], Recorded(emitted, event);
    forall s: string ensures Tracks(f, after, next, more, s) {
      TickTracked(f, states, seen, emitted, t, st, event, s);
    }
  }

  /** The tick repeats, within one step and within the heartbeat gap, the tick of the last event of its symbol. */
  ghost predicate SuppressedAfter(es: seq<FilteredEvent>, t: Tick, scale: int, gap: int) {
    es != [] && SameWithinStep(t, es[|es| - 1].tick, scale) && t.timeMsc - es[|es| - 1].tick.timeMsc < gap
  }

  lemma {:induction false} LastEmittedTick(f: Filtering, ts: seq<Tick>)
    ensures var es, ch := Emitted(f, ts), Run(f, ts);
            && (ch.last.None? <==> es == [])
            && (es != [] ==> ch.last == Some(Emission(QuoteOf(es[|es| - 1].tick, f.scale), es[|es| - 1].tick.timeMsc)))
  {
    if ts != [] { LastEmittedTick(f, ts[..|ts| - 1]); }
  }

  lemma SuppressedIsRepeat(f: Filtering, ts: seq<Tick>, t: Tick)
    requires !Emits(f, Run(f, ts), t)
    ensures SuppressedAfter(Emitted(f, ts), t, f.scale, f.gap)
  {
    LastEmittedTick(f, ts);
    var es := Emitted(f, ts);
    EqualQuotesAreClose(t, es[|es| - 1].tick, f.scale);
  }

  class TickFilter {
    const priceScale: int
    const heartbeatGap: int
    var states: map<string, SymbolState>
    var totalSeen: nat
    var totalEmitted: nat
    var totalSuppressed: nat

    ghost var seen: seq<Tick>
    ghost var emitted: seq<FilteredEvent>

    ghost function Setting(): Filtering { Filtering(priceScale, heartbeatGap) }

    ghost predicate Valid()
      reads this
    {
      && totalSeen == |seen| && totalEmitted == |emitted| && totalSuppressed == |seen| - |emitted|
      && TracksAll(Setting(), states, seen, emitted)
    }

    constructor (priceScale: int := 100, heartbeatGap: int := DEFAULT_HEARTBEAT_MAX_GAP_MS)
      ensures Valid() && seen == [] && emitted == []
      ensures this.priceScale == priceScale && this.heartbeatGap == heartbeatGap
    {
      this.priceScale, this.heartbeatGap := priceScale, heartbeatGap;
      states := map[];
      totalSeen, totalEmitted, totalSuppressed := 0, 0, 0;
      seen, emitted := [], [];
    }

    /** The state entry that one tick leaves behind, field by field. */
    method Judge(st: SymbolState, t: Tick, ghost ch: Channel) returns (st': SymbolState, event: Option<FilteredEvent>)
      requires Represents(st, ch)
      ensures event == if Emits(Setting(), ch, t) then Some(EventFor(Setting(), ch, t)) else None
      ensures Represents(st', Advance(Setting(), ch, t))
    {
      var bid, ask, last := ScalePrice(t.bid, priceScale), ScalePrice(t.ask, priceScale), ScalePrice(t.last, priceScale);
      var changed := st.lastBid != Some(bid) || st.lastAsk != Some(ask) || st.lastLast != Some(last)
        || st.lastVolume != Some(t.volume) || st.lastFlags != Some(t.flags);
      var advanced := st.lastTimeMsc.Some? && t.timeMsc - st.lastTimeMsc.value >= heartbeatGap;
      var firstEver := st.lastBid.None? && st.lastAsk.None?;
      if !(firstEver || changed || advanced) {
        st' := st.(suppressedCount := st.suppressedCount + 1,
                   firstSuppressed := if st.firstSuppressed.None? then Some(t.recv) else st.firstSuppressed,
                   lastSuppressed := Some(t.recv));
        return st', None;
      }
      event := Some(FilteredEvent(t, Quote(bid, ask, last, t.volume, t.flags), st.suppressedCount,
                                  st.firstSuppressed, st.lastSuppressed, st.suppressedCount > 0));
      st' := SymbolState(Some(bid), Some(ask), Some(last), Some(t.volume), Some(t.flags), Some(t.timeMsc), 0, None, None);
    }

    method Consider(t: Tick) returns (event: Option<FilteredEvent>)
      requires Valid()
      modifies this
      ensures Valid()
      ensures seen == old(seen) + [t]
      ensures var ch := Run(Setting(), OfSymbol(old(seen), t.symbol));
              event == if Emits(Setting(), ch, t) then Some(EventFor(Setting(), ch, t)) else None
      ensures emitted == old(emitted) + if event.Some? then [event.value] else []
      ensures event.Some? ==> event.value.tick == t && ScaledFrom(event.value.quote, t, priceScale)
      ensures event.None? ==> SuppressedAfter(EventsOf(old(emitted), t.symbol), t, priceScale, heartbeatGap)
    {
      assert Tracks(Setting(), states, seen, emitted, t.symbol);
      QuoteIsScaled(t, priceScale);
      if !Emits(Setting(), Run(Setting(), OfSymbol(seen, t.symbol)), t) { SuppressedIsRepeat(Setting(), OfSymbol(seen, t.symbol), t); }
      var st, e := Judge(StateFor(states, t.symbol), t, Run(Setting(), OfSymbol(seen, t.symbol)));
      event := e;
      AllTracked(Setting(), states, seen, emitted, t, st, e);
      totalSeen := totalSeen + 1;
      if event.Some? { totalEmitted := totalEmitted + 1; } else { totalSuppressed := totalSuppressed + 1; }
      states := states[t.symbol := st];
      seen := seen + [t];
      emitted := Recorded(emitted, event);
    }
  }

  // ----- the code is lossless

  function Repeat(q: Quote, n: nat): seq<Quote> {
    if n == 0 then [] else Repeat(q, n - 1) + [q]
  }

  /** Each event stands for its own quote, preceded by repetitions of the one before it. */
  function Decode(es: seq<FilteredEvent>): seq<Quote> {
    if es == [] then []
    else if |es| == 1 then [es[0].quote]
    else
      var n := |es| - 1;
      Decode(es[..n]) + Repeat(es[n - 1].quote, es[n].suppressedCount) + [es[n].quote]
  }

  function QuotesOf(ts: seq<Tick>, scale: int): seq<Quote> {
    if ts == [] then [] else QuotesOf(ts[..|ts| - 1], scale) + [QuoteOf(ts[|ts| - 1], scale)]
  }

  ghost function DecodeWithPending(es: seq<FilteredEvent>, pending: nat): seq<Quote> {
    if es == [] then [] else Decode(es) + Repeat(es[|es| - 1].quote, pending)
  }

  lemma {:induction false} LastEventIsLastEmission(f: Filtering, ts: seq<Tick>)
    ensures var es, ch := Emitted(f, ts), Run(f, ts);
            && (ch.last.None? <==> es == [])
            && (es == [] ==> ch.pending == [] && ts == [])
            && (es != [] ==> ch.last == Some(Emission(es[|es| - 1].quote, es[|es| - 1].tick.timeMsc)))
  {
    if ts != [] { LastEventIsLastEmission(f, ts[..|ts| - 1]); }
  }

  lemma DecodeAppend(es: seq<FilteredEvent>, e: FilteredEvent)
    ensures Decode(es + [e]) == DecodeWithPending(es, e.suppressedCount) + [e.quote]
  {
    assert (es + [e])[..|es|] == es;
  }

  lemma PendingGrows(es: seq<FilteredEvent>, pending: nat)
    requires es != []
    ensures DecodeWithPending(es, pending + 1) == DecodeWithPending(es, pending) + [es[|es| - 1].quote]
  {
    var d, q := Decode(es), es[|es| - 1].quote;
    assert d + (Repeat(q, pending) + [q]) == d + Repeat(q, pending) + [q];
  }

  /** Emitted events and the pending count determine the full sequence of quotes seen. */
  lemma {:induction false} LosslessPerSymbol(f: Filtering, ts: seq<Tick>)
    ensures DecodeWithPending(Emitted(f, ts), |Run(f, ts).pending|) == QuotesOf(ts, f.scale)
  {
    if ts != [] {
      var init, t := ts[..|ts| - 1], ts[|ts| - 1];
      LosslessPerSymbol(f, init);
      LastEventIsLastEmission(f, init);
      var es, ch := Emitted(f, init), Run(f, init);
      if Emits(f, ch, t) {
        var e := EventFor(f, ch, t);
        DecodeAppend(es, e);
        assert Emitted(f, ts) == es + [e];
        assert DecodeWithPending(es + [e], 0) == Decode(es + [e]) + Repeat(e.quote, 0) == Decode(es + [e]);
      } else {
        assert Emitted(f, ts) == es && Run(f, ts).pending == ch.pending + [t.recv];
        PendingGrows(es, |ch.pending|);
      }
    }
  }

  /** For every interleaving of symbols, each symbol's quotes can be read back from its own events. */
  lemma Lossless(filter: TickFilter, symbol: string)
    requires filter.Valid()
    ensures DecodeWithPending(EventsOf(filter.emitted, symbol), StateFor(filter.states, symbol).suppressedCount)
              == QuotesOf(OfSymbol(filter.seen, symbol), filter.priceScale)
  {
    assert Tracks(filter.Setting(), filter.states, filter.seen, filter.emitted, symbol);
    LosslessPerSymbol(filter.Setting(), OfSymbol(filter.seen, symbol));
  }

  /** Every emitted quote is its own tick's, each price within half a step of the tick's price times the scale. */
  lemma {:induction false} EventsAreScaled(f: Filtering, ts: seq<Tick>, i: nat)
    requires i < |Emitted(f, ts)|
    ensures var e := Emitted(f, ts)[i]; e.tick in ts && ScaledFrom(e.quote, e.tick, f.scale)
  {
    var init, t := ts[..|ts| - 1], ts[|ts| - 1];
    QuoteIsScaled(t, f.scale);
    if i < |Emitted(f, init)| { EventsAreScaled(f, init, i); }
  }

  /** A move of more than one step in any price, another volume or other flags is never suppressed. */
  lemma MovesAreEmitted(f: Filtering, ts: seq<Tick>, t: Tick)
    requires !SuppressedAfter(Emitted(f, ts), t, f.scale, f.gap)
    ensures Emitted(f, ts + [t]) == Emitted(f, ts) + [EventFor(f, Run(f, ts), t)]
    ensures EventFor(f, Run(f, ts), t).tick == t && ScaledFrom(EventFor(f, Run(f, ts), t).quote, t, f.scale)
  {
    QuoteIsScaled(t, f.scale);
    if !Emits(f, Run(f, ts), t) { SuppressedIsRepeat(f, ts, t); }
    RunSnoc(f, ts, t);
  }

  /** Conversely a tick that repeats the scaled quote of the last event inside the gap is suppressed. */
  lemma RepeatsAreSuppressed(f: Filtering, ts: seq<Tick>, t: Tick)
    requires Emitted(f, ts) != []
    requires var e := Emitted(f, ts)[|Emitted(f, ts)| - 1];
             && t.bid == e.tick.bid && t.ask == e.tick.ask && t.last == e.tick.last
             && t.volume == e.tick.volume && t.flags == e.tick.flags && t.timeMsc - e.tick.timeMsc < f.gap
    ensures Emitted(f, ts + [t]) == Emitted(f, ts)
  {
    LastEmittedTick(f, ts);
    RunSnoc(f, ts, t);
  }

  /** Consecutive events of a symbol differ, or are at least a heartbeat apart. */
  lemma {:induction false} EventsDifferOrBeat(f: Filtering, ts: seq<Tick>, i: nat)
    requires i + 1 < |Emitted(f, ts)|
    ensures var a, b := Emitted(f, ts)[i], Emitted(f, ts)[i + 1];
            a.quote != b.quote || b.tick.timeMsc - a.tick.timeMsc >= f.gap
  {
    var init := ts[..|ts| - 1];
    LastEventIsLastEmission(f, init);
    if i + 1 < |Emitted(f, init)| { EventsDifferOrBeat(f, init, i); }
  }

  function RecvTimes(ts: seq<Tick>): seq<int> {
    if ts == [] then [] else RecvTimes(ts[..|ts| - 1]) + [ts[|ts| - 1].recv]
  }

  /** The pending run is the tail of the input, and every tick in it repeats the last emitted quote. */
  lemma {:induction false} PendingIsTheTail(f: Filtering, ts: seq<Tick>)
    ensures var ch := Run(f, ts);
            var m := |ch.pending|;
            && m <= |ts| && ch.pending == RecvTimes(ts[|ts| - m..])
            && forall i :: |ts| - m <= i < |ts| ==> ch.last.Some? && QuoteOf(ts[i], f.scale) == ch.last.value.quote
  {
    if ts != [] {
      var init, t := ts[..|ts| - 1], ts[|ts| - 1];
      PendingIsTheTail(f, init);
      var ch := Run(f, init);
      var m := |ch.pending|;
      if !Emits(f, ch, t) {
        var tail := ts[|ts| - (m + 1)..];
        assert tail[..|tail| - 1] == init[|init| - m..];
      }
    }
  }

  lemma {:induction false} RecvTimesIndex(ts: seq<Tick>)
    ensures |RecvTimes(ts)| == |ts| && forall i :: 0 <= i < |ts| ==> RecvTimes(ts)[i] == ts[i].recv
  {
    if ts != [] { RecvTimesIndex(ts[..|ts| - 1]); }
  }

  /** An event reports exactly the ticks suppressed just before it: how many, and when the first and last arrived. */
  lemma EventReportsSuppressedRun(f: Filtering, ts: seq<Tick>, t: Tick)
    requires Emits(f, Run(f, ts), t)
    ensures var e := EventFor(f, Run(f, ts), t);
            && e.suppressedCount <= |ts| && (e.duplicateReason <==> e.suppressedCount > 0)
            && (e.suppressedCount == 0 ==> e.firstSuppressed.None? && e.lastSuppressed.None?)
            && (e.suppressedCount > 0 ==>
                  e.firstSuppressed == Some(ts[|ts| - e.suppressedCount].recv) && e.lastSuppressed == Some(ts[|ts| - 1].recv))
  {
    PendingIsTheTail(f, ts);
    RecvTimesIndex(ts[|ts| - |Run(f, ts).pending|..]);
  }
}
