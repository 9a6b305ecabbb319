/**
 * The clock inference read from the broker's side: what its stamps and their delays lead to, for every
 * gate, and when the clock is marked unsafe.
 */
module BrokerClock {
  import opened Sequences
  import opened Percentiles
  import opened TimestampSemantics

  // ----- stamps of a broker whose clock runs ahead of UTC

  /**
   * The i-th tick happened at at[i] UTC, was stamped by a clock that is truth minutes ahead, and arrived
   * with a delay inside the gate.
   */
  ghost predicate BrokerStream(cfg: Config, truth: int, at: seq<int>, ticks: seq<Op>) {
    && |at| == |ticks|
    && forall i :: 0 <= i < |ticks| ==>
         && ticks[i].Tick? && ticks[i].raw == at[i] + truth * 60_000
         && -cfg.gate.maxFutureJitterMs <= ticks[i].recv - at[i] <= cfg.gate.maxLiveTickAgeMs
  }

  lemma BrokerStreamIsLive(cfg: Config, truth: int, at: seq<int>, ticks: seq<Op>)
    requires BrokerStream(cfg, truth, at, ticks)
    ensures OnlyTicks(ticks) && Live(cfg, truth, ticks)
  {
  }

  ghost predicate TwoStamps(ticks: seq<Op>)
    requires OnlyTicks(ticks)
  {
    exists i, j :: 0 <= i < j < |ticks| && ticks[i].raw != ticks[j].raw
  }

  lemma TwoInSet(d: set<int>, x: int, y: int)
    requires x in d && y in d && x != y
    ensures |d| >= 2
  {
    assert d == {x, y} + (d - {x, y});
  }

  lemma TwoStampsCount(ticks: seq<Op>)
    requires OnlyTicks(ticks)
    ensures |RawTimes(ticks)| >= 2 <==> TwoStamps(ticks)
  {
    var raws := RawTimes(ticks);
    if i, j :| 0 <= i < j < |ticks| && ticks[i].raw != ticks[j].raw {
      TwoInSet(raws, ticks[i].raw, ticks[j].raw);
    }
    if |raws| >= 2 {
      var x := Member(raws);
      assert raws == (raws - {x}) + {x};
      var y := Member(raws - {x});
      var i :| 0 <= i < |ticks| && ticks[i].Tick? && ticks[i].raw == x;
      var j :| 0 <= j < |ticks| && ticks[j].Tick? && ticks[j].raw == y;
      assert if i < j then ticks[i].raw != ticks[j].raw else ticks[j].raw != ticks[i].raw;
    }
  }

  /**
   * A live broker at a plausible offset is verified, with its own offset, exactly when the required
   * number of its ticks and two different stamps have arrived.
   */
  lemma LiveBrokerIsVerified(cfg: Config, truth: int, s: State, at: seq<int>, ticks: seq<Op>)
    requires Separated(cfg, truth) && Clean(cfg, s) && BrokerStream(cfg, truth, at, ticks)
    requires cfg.gate.maxLiveTickAgeMs <= 1000
    ensures OnlyTicks(ticks)
    ensures RunFrom(cfg, s, ticks).verified
              == if |ticks| >= cfg.requiredFreshTicks && TwoStamps(ticks) then Some(truth) else None
  {
    BrokerStreamIsLive(cfg, truth, at, ticks);
    TwoStampsCount(ticks);
    VerifiedAfterRequiredTicks(cfg, truth, s, ticks);
  }

  // ----- any gate

  /** These ticks suffice: enough of them, two stamps, and prompt over the last 1024 of them. */
  ghost predicate Ready(cfg: Config, truth: int, ticks: seq<Op>)
    requires OnlyTicks(ticks)
  {
    var delays := Reals(Recent(Delays(truth, ticks)));
    && delays != [] && |ticks| >= cfg.requiredFreshTicks && TwoStamps(ticks)
    && Percentile(delays, 0.5).value <= 1000.0 && Percentile(delays, 0.95).value <= 5000.0
  }

  ghost predicate EverReady(cfg: Config, truth: int, ticks: seq<Op>)
    requires OnlyTicks(ticks)
  {
    Ready(cfg, truth, ticks) || (ticks != [] && EverReady(cfg, truth, ticks[..|ticks| - 1]))
  }

  lemma ReadyIsEligible(cfg: Config, truth: int, s: State, t: nat, ticks: seq<Op>)
    requires OnlyTicks(ticks) && HoldsTicks(truth, s, t, ticks)
    ensures Eligible(cfg, s.candidates[t]) <==> Ready(cfg, truth, ticks)
  {
    TwoStampsCount(ticks);
  }

  lemma VerifiesIffTruthEligible(cfg: Config, truth: int, hint: Option<int>, s: State, t: nat)
    requires OnlyTruth(cfg, truth, hint, s) && s.status == Pending
    requires t < |s.candidates| && s.candidates[t].offset == truth
    ensures Verify(cfg, s).0.verified.Some? <==> Eligible(cfg, s.candidates[t])
  {
    BestIsFirstMinimum(cfg, s.candidates);
    forall i | 0 <= i < |s.candidates| && i != t ensures !Eligible(cfg, s.candidates[i]) {
      assert Dedup(cfg.offsets)[i] != Dedup(cfg.offsets)[t];
      UntouchedNotEligible(cfg, s.candidates[i]);
    }
  }

  lemma TickVerifies(cfg: Config, truth: int, hint: Option<int>, s: State, ticks: seq<Op>, t: nat)
    requires Separated(cfg, truth) && OnlyTruth(cfg, truth, hint, s)
    requires ticks != [] && OnlyTicks(ticks) && Live(cfg, truth, ticks)
    requires t < |Dedup(cfg.offsets)| && Dedup(cfg.offsets)[t] == truth && HoldsTicks(truth, s, t, ticks[..|ticks| - 1])
    ensures var op := ticks[|ticks| - 1];
            Apply(cfg, s, op).0.verified.Some? <==> s.verified.Some? || Ready(cfg, truth, ticks)
  {
    var op := ticks[|ticks| - 1];
    var n := Noted(cfg, s, op.raw, op.recv);
    NotedKeepsOnlyTruth(cfg, truth, hint, s, op.raw, op.recv);
    EvidenceGrows(cfg, truth, s, ticks, t);
    ReadyIsEligible(cfg, truth, n, t, ticks);
    assert FreshUnder(cfg.gate, s.candidates[t], op.raw, op.recv);
    if s.verified.None? { VerifiesIffTruthEligible(cfg, truth, hint, n, t); }
  }

  /**
   * For every gate: from any clean point, live ticks verify the true offset exactly when at some moment
   * they were enough, carried two stamps, and the median and the 95th percentile of the last 1024 delays
   * were at most one and five seconds.
   */
  lemma {:induction false} VerifiedOnceReady(cfg: Config, truth: int, s: State, ticks: seq<Op>)
    requires Separated(cfg, truth) && Clean(cfg, s) && OnlyTicks(ticks) && Live(cfg, truth, ticks)
    ensures RunFrom(cfg, s, ticks).verified == if EverReady(cfg, truth, ticks) then Some(truth) else None
  {
    InferenceIsSound(cfg, truth, s, ticks);
    if ticks == [] {
      CleanMeans(cfg, s);
    } else {
      var init := ticks[..|ticks| - 1];
      VerifiedOnceReady(cfg, truth, s, init);
      InferenceIsSound(cfg, truth, s, init);
      var t := TruthIndex(cfg, truth);
      EvidenceCounts(cfg, truth, s, init, t);
      TickVerifies(cfg, truth, s.cached, RunFrom(cfg, s, init), ticks, t);
    }
  }

  // ----- the choice among candidates

  /** The median residual of a candidate that has residuals. */
  ghost predicate IsMedian(c: Candidate, p: real) { Percentile(Reals(c.residuals), 0.5) == Some(p) }

  lemma DistanceOfMedian(c: Candidate, p: real)
    requires IsMedian(c, p)
    ensures MedianDistance(c) >= 0.0 && (MedianDistance(c) == p || MedianDistance(c) == -p)
  {
  }

  lemma ChosenIsEligible(cfg: Config, cs: seq<Candidate>, i: nat) returns (k: nat)
    requires i < |cs| && Eligible(cfg, cs[i])
    ensures k < |cs| && Best(cfg, cs) == Some(cs[k]) && Eligible(cfg, cs[k]) && MedianDistance(cs[k]) <= MedianDistance(cs[i])
  {
    BestIsFirstMinimum(cfg, cs);
    k :| FirstMinimum(cfg, cs, k) && cs[k] == Best(cfg, cs).value;
  }

  /** The chosen candidate's median residual is closest to zero: no eligible one's is closer. */
  lemma ChosenIsClosest(cfg: Config, cs: seq<Candidate>, i: nat, q: real) returns (k: nat, p: real)
    requires i < |cs| && Eligible(cfg, cs[i]) && IsMedian(cs[i], q)
    ensures k < |cs| && Best(cfg, cs) == Some(cs[k]) && IsMedian(cs[k], p)
    ensures (if p < 0.0 then -p else p) <= (if q < 0.0 then -q else q)
  {
    k := ChosenIsEligible(cfg, cs, i);
    p := Percentile(Reals(cs[k].residuals), 0.5).value;
    DistanceOfMedian(cs[k], p);
    DistanceOfMedian(cs[i], q);
  }

  // ----- marking the clock unsafe

  /** The operations after the last reconnect. */
  ghost function SinceReconnect(ops: seq<Op>): seq<Op> {
    if ops == [] || ops[|ops| - 1].Reconnect? then [] else SinceReconnect(ops[..|ops| - 1]) + [ops[|ops| - 1]]
  }

  /** When the first tick arrived. */
  ghost function FirstArrival(ops: seq<Op>): Option<int> {
    if ops == [] then None
    else if FirstArrival(ops[..|ops| - 1]).Some? then FirstArrival(ops[..|ops| - 1])
    else if ops[|ops| - 1].Tick? then Some(ops[|ops| - 1].recv)
    else None
  }

  lemma ArrivalSnoc(cfg: Config, ops: seq<Op>, op: Op)
    ensures FirstArrival(ops + [op]) == if FirstArrival(ops).None? && op.Tick? then Some(op.recv) else FirstArrival(ops)
    ensures LastFresh(cfg, None, ops + [op]) == if FreshTick(cfg, op) then Some(op.recv) else LastFresh(cfg, None, ops)
  {
    assert (ops + [op])[..|ops|] == ops;
  }

  lemma StepTimes(cfg: Config, s: State, op: Op)
    requires Inv(cfg, s)
    ensures var t := Apply(cfg, s, op).0;
            && t.firstRecv == (if op.Reconnect? then None else if s.firstRecv.None? && op.Tick? then Some(op.recv) else s.firstRecv)
            && t.lastFresh == (if op.Reconnect? then None else if FreshTick(cfg, op) then Some(op.recv) else s.lastFresh)
  {
    if op.Tick? { FreshTickMeans(cfg, s, op); }
  }

  /** The two times a clock keeps are the first arrival and the last fresh one since the last reconnect. */
  lemma {:induction false} TimesKept(cfg: Config, cached: Option<int>, ops: seq<Op>)
    ensures var s, live := Run(cfg, cached, ops), SinceReconnect(ops);
            s.firstRecv == FirstArrival(live) && s.lastFresh == LastFresh(cfg, None, live)
  {
    if ops != [] {
      var init, op := ops[..|ops| - 1], ops[|ops| - 1];
      TimesKept(cfg, cached, init);
      InvariantAlways(cfg, cached, init);
      StepTimes(cfg, Run(cfg, cached, init), op);
      ArrivalSnoc(cfg, SinceReconnect(init), op);
    }
  }

  /** How long nothing fresh has arrived, counted from the first arrival when nothing fresh ever did. */
  ghost predicate SilentFor(cfg: Config, ops: seq<Op>, now: int, limit: int) {
    var live := SinceReconnect(ops);
    var last, first := LastFresh(cfg, None, live), FirstArrival(live);
    if last.Some? then now - last.value >= limit else first.Some? && now - first.value >= limit
  }

  /**
   * A check marks the clock unsafe exactly when it is not verified and nothing fresh has arrived for the
   * unsafe limit; it withdraws a verification exactly when nothing fresh has arrived for the downgrade
   * limit. The first fresh tick makes an unsafe clock pending again.
   */
  lemma ChecksAreExact(cfg: Config, cached: Option<int>, ops: seq<Op>, now: int)
    ensures var s, e := Run(cfg, cached, ops), Apply(cfg, Run(cfg, cached, ops), Evaluate(now));
            && (e.1 == Some(Downgraded) <==> JoinSafe(s.status) && SilentFor(cfg, ops, now, cfg.downgradeAfterMs))
            && (e.1 == Some(MarkedUnsafe) <==> s.status == Pending && SilentFor(cfg, ops, now, cfg.unsafeAfterMs))
            && (e.0.status == UnsafeForJoin <==> s.status == UnsafeForJoin || e.1 == Some(MarkedUnsafe))
            && (e.1.None? ==> e.0 == s)
  {
    TimesKept(cfg, cached, ops);
    InvariantAlways(cfg, cached, ops);
  }

  lemma FreshTickRevives(cfg: Config, cached: Option<int>, ops: seq<Op>, op: Op)
    requires Run(cfg, cached, ops).status == UnsafeForJoin && op.Tick?
    ensures Apply(cfg, Run(cfg, cached, ops), op).0.status == UnsafeForJoin <==> !FreshTick(cfg, op)
  {
    InvariantAlways(cfg, cached, ops);
    FreshTickMeans(cfg, Run(cfg, cached, ops), op);
  }
}
