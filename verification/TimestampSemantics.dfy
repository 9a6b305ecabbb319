/**
 * Broker-clock inference: which of the plausible UTC offsets explains the tick stream, when may
 * its ticks be joined, and when must the answer be withdrawn.
 */
module TimestampSemantics {
  import opened Sequences
  import opened Percentiles

  const P50_MAX_MS: real := 1000.0
  const P95_MAX_MS: real := 5000.0
  const MIN_DISTINCT_TIME_MSC: nat := 2
  const RESIDUAL_WINDOW: nat := 1024

  datatype FreshnessGate = FreshnessGate(maxFutureJitterMs: int, maxLiveTickAgeMs: int)
  {
    predicate AgeIsFresh(age: int) { -maxFutureJitterMs <= age <= maxLiveTickAgeMs }
  }

  /** Residuals are the most recent fresh ages, oldest first. */
  datatype Candidate = Candidate(offset: int, freshCount: nat, distinct: set<int>, residuals: seq<int>)

  datatype Status = Pending | OffsetVerified | UtcVerified | UnsafeForJoin

  datatype Event = DstShift | OffsetChange | Downgraded | MarkedUnsafe

  datatype Config = Config(offsets: seq<int>, gate: FreshnessGate, requiredFreshTicks: int,
                           downgradeAfterMs: int, unsafeAfterMs: int)

  datatype State = State(status: Status, verified: Option<int>, cached: Option<int>, candidates: seq<Candidate>,
                         lastEvent: Option<Event>, firstRecv: Option<int>, lastFresh: Option<int>, lastRecv: Option<int>)

  predicate JoinSafe(s: Status) { s == OffsetVerified || s == UtcVerified }

  // ----- candidates

  function Dedup(offsets: seq<int>): (r: seq<int>)
    ensures forall o :: o in r <==> o in offsets
    ensures forall i, j :: 0 <= i < j < |r| ==> r[i] != r[j]
  {
    if offsets == [] then []
    else
      var init, o := Dedup(offsets[..|offsets| - 1]), offsets[|offsets| - 1];
      assert forall x :: x in offsets <==> x in offsets[..|offsets| - 1] || x == o;
      if o in init then init else init + [o]
  }

  function FreshCandidates(offsets: seq<int>): seq<Candidate> {
    var ids := Dedup(offsets);
    seq(|ids|, i requires 0 <= i < |ids| => Candidate(ids[i], 0, {}, []))
  }

  function AgeUnder(offset: int, raw: int, recv: int): int { recv - (raw - offset * 60_000) }

  function PushResidual(residuals: seq<int>, age: int): seq<int> {
    var r := residuals + [age];
    if |r| > RESIDUAL_WINDOW then r[|r| - RESIDUAL_WINDOW..] else r
  }

  predicate FreshUnder(gate: FreshnessGate, c: Candidate, raw: int, recv: int) {
    gate.AgeIsFresh(AgeUnder(c.offset, raw, recv))
  }

  function Touch(gate: FreshnessGate, c: Candidate, raw: int, recv: int): Candidate {
    var age := AgeUnder(c.offset, raw, recv);
    if gate.AgeIsFresh(age)
    then Candidate(c.offset, c.freshCount + 1, c.distinct + {raw}, PushResidual(c.residuals, age))
    else c
  }

  function Reals(xs: seq<int>): (r: seq<real>)
    ensures |r| == |xs| && forall i :: 0 <= i < |xs| ==> r[i] == xs[i] as real
  {
    seq(|xs|, i requires 0 <= i < |xs| => xs[i] as real)
  }

  /** An empty sample counts as infinitely late. */
  predicate AtMostPercentile(c: Candidate, pct: real, limit: real)
    requires 0.0 <= pct <= 1.0
  {
    var p := Percentile(Reals(c.residuals), pct);
    p.Some? && p.value <= limit
  }

  predicate Eligible(cfg: Config, c: Candidate) {
    && c.freshCount >= cfg.requiredFreshTicks
    && |c.distinct| >= MIN_DISTINCT_TIME_MSC
    && AtMostPercentile(c, 0.5, P50_MAX_MS)
    && AtMostPercentile(c, 0.95, P95_MAX_MS)
  }

  /** Distance of the median residual from zero. */
  function MedianDistance(c: Candidate): real {
    var p := Percentile(Reals(c.residuals), 0.5);
    if p.None? then 0.0 else if p.value < 0.0 then -p.value else p.value
  }

  /** The first eligible candidate with the smallest median distance. */
  function Best(cfg: Config, cs: seq<Candidate>): Option<Candidate> {
    if cs == [] then None
    else
      var rest, c := Best(cfg, cs[..|cs| - 1]), cs[|cs| - 1];
      if Eligible(cfg, c) && (rest.None? || MedianDistance(c) < MedianDistance(rest.value)) then Some(c) else rest
  }

  ghost predicate FirstMinimum(cfg: Config, cs: seq<Candidate>, k: nat) {
    && k < |cs| && Eligible(cfg, cs[k])
    && (forall i :: 0 <= i < |cs| && Eligible(cfg, cs[i]) ==> MedianDistance(cs[k]) <= MedianDistance(cs[i]))
    && (forall i :: 0 <= i < k && Eligible(cfg, cs[i]) ==> MedianDistance(cs[k]) < MedianDistance(cs[i]))
  }

  lemma MinimumOfInit(cfg: Config, cs: seq<Candidate>, c: Candidate, k: nat)
    requires FirstMinimum(cfg, cs, k)
    ensures !Eligible(cfg, c) || MedianDistance(cs[k]) <= MedianDistance(c) ==> FirstMinimum(cfg, cs + [c], k)
    ensures Eligible(cfg, c) && MedianDistance(c) < MedianDistance(cs[k]) ==> FirstMinimum(cfg, cs + [c], |cs|)
  {
    var all := cs + [c];
    assert forall i :: 0 <= i < |cs| ==> all[i] == cs[i];
  }

  lemma OnlyLastEligible(cfg: Config, cs: seq<Candidate>, c: Candidate)
    requires NoneEligible(cfg, cs)
    ensures Eligible(cfg, c) ==> FirstMinimum(cfg, cs + [c], |cs|)
    ensures !Eligible(cfg, c) ==> NoneEligible(cfg, cs + [c])
  {
    var all := cs + [c];
    assert forall i :: 0 <= i < |cs| ==> all[i] == cs[i];
  }

  ghost predicate NoneEligible(cfg: Config, cs: seq<Candidate>) {
    forall i :: 0 <= i < |cs| ==> !Eligible(cfg, cs[i])
  }

  /** Best is found exactly when something is eligible, nothing eligible beats it, and ties go to the earlier candidate. */
  lemma {:induction false} BestIsFirstMinimum(cfg: Config, cs: seq<Candidate>)
    ensures Best(cfg, cs).None? <==> NoneEligible(cfg, cs)
    ensures Best(cfg, cs).Some? ==> exists k: nat :: FirstMinimum(cfg, cs, k) && cs[k] == Best(cfg, cs).value
  {
    if cs != [] {
      var n := |cs| - 1;
      var init, c := cs[..n], cs[n];
      assert cs == init + [c];
      BestIsFirstMinimum(cfg, init);
      var rest := Best(cfg, init);
      if rest.None? {
        OnlyLastEligible(cfg, init, c);
      } else {
        var k: nat :| FirstMinimum(cfg, init, k) && init[k] == rest.value;
        MinimumOfInit(cfg, init, c, k);
        assert cs[k] == rest.value && Eligible(cfg, cs[k]);
      }
    }
  }

  // ----- the state machine

  function Initial(cfg: Config, cached: Option<int>): State {
    State(Pending, None, cached, FreshCandidates(cfg.offsets), None, None, None, None)
  }

  function Verify(cfg: Config, s: State): (State, Option<Event>) {
    if s.status != Pending then (s, None)
    else
      var best := Best(cfg, s.candidates);
      if best.None? then (s, None)
      else
        var o := best.value.offset;
        var v := s.(verified := Some(o), status := if o == 0 then UtcVerified else OffsetVerified);
        if s.cached.Some? && s.cached.value != o then
          var e := if o - s.cached.value == 60 || s.cached.value - o == 60 then DstShift else OffsetChange;
          (v.(lastEvent := Some(e)), Some(e))
        else (v, None)
  }

  function TouchAll(gate: FreshnessGate, cs: seq<Candidate>, raw: int, recv: int): seq<Candidate> {
    seq(|cs|, i requires 0 <= i < |cs| => Touch(gate, cs[i], raw, recv))
  }

  predicate AnyFresh(gate: FreshnessGate, cs: seq<Candidate>, raw: int, recv: int) {
    exists i :: 0 <= i < |cs| && FreshUnder(gate, cs[i], raw, recv)
  }

  lemma FreshOffsetsMean(gate: FreshnessGate, cs: seq<Candidate>, raw: int, recv: int, offsets: seq<int>)
    requires forall o :: o in offsets <==> exists k :: 0 <= k < |cs| && cs[k].offset == o && FreshUnder(gate, cs[k], raw, recv)
    ensures offsets != [] <==> AnyFresh(gate, cs, raw, recv)
  {
    if offsets != [] {
      var o := offsets[0];
      assert o in offsets;
      var k :| 0 <= k < |cs| && cs[k].offset == o && FreshUnder(gate, cs[k], raw, recv);
      assert AnyFresh(gate, cs, raw, recv);
    } else {
      forall k | 0 <= k < |cs| ensures !FreshUnder(gate, cs[k], raw, recv) {
        assert cs[k].offset !in offsets;
      }
    }
  }

  /** Book-keeping of one tick, before verification is attempted. */
  function Noted(cfg: Config, s: State, raw: int, recv: int): State {
    var hit := AnyFresh(cfg.gate, s.candidates, raw, recv);
    s.(firstRecv := if s.firstRecv.None? then Some(recv) else s.firstRecv,
       lastRecv := Some(recv),
       candidates := TouchAll(cfg.gate, s.candidates, raw, recv),
       lastFresh := if hit then Some(recv) else s.lastFresh,
       status := if hit && s.status == UnsafeForJoin then Pending else s.status)
  }

  function Observed(cfg: Config, s: State, raw: int, recv: int): (State, Option<Event>) {
    Verify(cfg, Noted(cfg, s, raw, recv))
  }

  function Reconnected(cfg: Config, s: State): State {
    s.(status := Pending, verified := None, lastEvent := None, firstRecv := None, lastFresh := None,
       candidates := FreshCandidates(cfg.offsets),
       cached := if s.verified.Some? then s.verified else s.cached)
  }

  function StaleGap(cfg: Config, s: State, now: int): int {
    if s.lastFresh.None? then cfg.downgradeAfterMs + 1 else now - s.lastFresh.value
  }

  function Evaluated(cfg: Config, s: State, now: int): (State, Option<Event>) {
    if JoinSafe(s.status) && StaleGap(cfg, s, now) >= cfg.downgradeAfterMs then
      (s.(cached := s.verified, verified := None, status := Pending,
          candidates := FreshCandidates(cfg.offsets), lastEvent := Some(Downgraded)), Some(Downgraded))
    else
      var ref := if s.lastFresh.Some? then s.lastFresh else s.firstRecv;
      if s.status == Pending && ref.Some? && now - ref.value >= cfg.unsafeAfterMs
      then (s.(status := UnsafeForJoin, lastEvent := Some(MarkedUnsafe)), Some(MarkedUnsafe))
      else (s, None)
  }

  // ----- the object

  class TimestampSemantics {
    const cfg: Config
    var status: Status
    var verifiedOffsetMin: Option<int>
    var cachedOffsetMin: Option<int>
    var candidates: seq<Candidate>
    var lastEvent: Option<Event>
    var firstObservationRecvMs: Option<int>
    var lastFreshObservationRecvMs: Option<int>
    var lastRecvTimeUtcMs: Option<int>

    ghost function Abs(): State
      reads this
    {
      State(status, verifiedOffsetMin, cachedOffsetMin, candidates, lastEvent,
            firstObservationRecvMs, lastFreshObservationRecvMs, lastRecvTimeUtcMs)
    }

    constructor (cfg: Config, cached: Option<int>)
      ensures this.cfg == cfg && Abs() == Initial(cfg, cached)
    {
      this.cfg := cfg;
      status, verifiedOffsetMin, cachedOffsetMin := Pending, None, cached;
      candidates := FreshCandidates(cfg.offsets);
      lastEvent, firstObservationRecvMs, lastFreshObservationRecvMs, lastRecvTimeUtcMs := None, None, None, None;
    }

    method ResetForReconnect()
      modifies this
      ensures Abs() == Reconnected(cfg, old(Abs()))
    {
      var previous := verifiedOffsetMin;
      status := Pending;
      verifiedOffsetMin, lastEvent, firstObservationRecvMs, lastFreshObservationRecvMs := None, None, None, None;
      candidates := FreshCandidates(cfg.offsets);
      if previous.Some? { cachedOffsetMin := previous; }
    }

    method MaybeVerify() returns (event: Option<Event>)
      modifies this
      ensures (Abs(), event) == Verify(cfg, old(Abs()))
    {
      if status != Pending { return None; }
      var chosen: Option<Candidate> := None;
      for i := 0 to |candidates|
        invariant chosen == Best(cfg, candidates[..i])
      {
        var c := candidates[i];
        assert candidates[..i + 1][..i] == candidates[..i];
        if c.freshCount < cfg.requiredFreshTicks { continue; }
        if |c.distinct| < MIN_DISTINCT_TIME_MSC { continue; }
        if AtMostPercentile(c, 0.5, P50_MAX_MS) && AtMostPercentile(c, 0.95, P95_MAX_MS) {
          if chosen.None? || MedianDistance(c) < MedianDistance(chosen.value) { chosen := Some(c); }
        }
      }
      assert candidates[..|candidates|] == candidates;
      if chosen.None? { return None; }
      var o := chosen.value.offset;
      verifiedOffsetMin := Some(o);
      status := if o == 0 then UtcVerified else OffsetVerified;
      event := None;
      if cachedOffsetMin.Some? && cachedOffsetMin.value != o {
        var delta := if o >= cachedOffsetMin.value then o - cachedOffsetMin.value else cachedOffsetMin.value - o;
        event := Some(if delta == 60 then DstShift else OffsetChange);
        lastEvent := event;
      }
    }

    method Observe(raw: int, recv: int) returns (event: Option<Event>, freshOffsets: seq<int>)
      modifies this
      ensures (Abs(), event) == Observed(cfg, old(Abs()), raw, recv)
      ensures forall o :: o in freshOffsets <==>
                (exists i :: 0 <= i < |old(candidates)| && old(candidates)[i].offset == o) && StampedLive(cfg, o, raw, recv)
    {
      ghost var before := Abs();
      if firstObservationRecvMs.None? { firstObservationRecvMs := Some(recv); }
      lastRecvTimeUtcMs := Some(recv);
      freshOffsets := [];
      ghost var cs := candidates;
      for i := 0 to |candidates|
        invariant |candidates| == |cs|
        invariant forall k :: 0 <= k < |cs| ==> candidates[k] == if k < i then Touch(cfg.gate, cs[k], raw, recv) else cs[k]
        invariant forall o :: o in freshOffsets <==>
                    exists k :: 0 <= k < i && cs[k].offset == o && FreshUnder(cfg.gate, cs[k], raw, recv)
        invariant Abs() == before.(firstRecv := if before.firstRecv.None? then Some(recv) else before.firstRecv,
                                   lastRecv := Some(recv), candidates := candidates)
      {
        var c := candidates[i];
        var age := AgeUnder(c.offset, raw, recv);
        if !cfg.gate.AgeIsFresh(age) { continue; }
        freshOffsets := freshOffsets + [c.offset];
        candidates := candidates[i := Candidate(c.offset, c.freshCount + 1, c.distinct + {raw}, PushResidual(c.residuals, age))];
      }
      assert candidates == TouchAll(cfg.gate, cs, raw, recv);
      FreshOffsetsMean(cfg.gate, cs, raw, recv, freshOffsets);
      if freshOffsets != [] {
        lastFreshObservationRecvMs := Some(recv);
        if status == UnsafeForJoin { status := Pending; }
      }
      assert Abs() == Noted(cfg, before, raw, recv);
      event := MaybeVerify();
    }

    method EvaluateStaleness(now: int) returns (event: Option<Event>)
      modifies this
      ensures (Abs(), event) == Evaluated(cfg, old(Abs()), now)
    {
      if status == OffsetVerified || status == UtcVerified {
        var gap := if lastFreshObservationRecvMs.None? then cfg.downgradeAfterMs + 1 else now - lastFreshObservationRecvMs.value;
        if gap >= cfg.downgradeAfterMs {
          cachedOffsetMin := verifiedOffsetMin;
          verifiedOffsetMin := None;
          status := Pending;
          candidates := FreshCandidates(cfg.offsets);
          lastEvent := Some(Downgraded);
          return Some(Downgraded);
        }
      }
      if status == Pending {
        var ref := if lastFreshObservationRecvMs.Some? then lastFreshObservationRecvMs else firstObservationRecvMs;
        if ref.Some? && now - ref.value >= cfg.unsafeAfterMs {
          status := UnsafeForJoin;
          lastEvent := Some(MarkedUnsafe);
          return Some(MarkedUnsafe);
        }
      }
      return None;
    }
  }

  // ----- runs

  datatype Op = Tick(raw: int, recv: int) | Evaluate(now: int) | Reconnect

  function Apply(cfg: Config, s: State, op: Op): (State, Option<Event>) {
    match op
    case Tick(raw, recv) => Observed(cfg, s, raw, recv)
    case Evaluate(now) => Evaluated(cfg, s, now)
    case Reconnect => (Reconnected(cfg, s), None)
  }

  function RunFrom(cfg: Config, s: State, ops: seq<Op>): State {
    if ops == [] then s
    else Apply(cfg, RunFrom(cfg, s, ops[..|ops| - 1]), ops[|ops| - 1]).0
  }

  function Run(cfg: Config, cached: Option<int>, ops: seq<Op>): State { RunFrom(cfg, Initial(cfg, cached), ops) }

  ghost predicate CandidateInv(cfg: Config, c: Candidate) {
    && |c.residuals| == (if c.freshCount <= RESIDUAL_WINDOW then c.freshCount else RESIDUAL_WINDOW)
    && |c.distinct| <= c.freshCount
    && forall a :: a in c.residuals ==> cfg.gate.AgeIsFresh(a)
  }

  ghost predicate CandidatesFit(cfg: Config, cs: seq<Candidate>) {
    && |cs| == |Dedup(cfg.offsets)|
    && forall i :: 0 <= i < |cs| ==> cs[i].offset == Dedup(cfg.offsets)[i] && CandidateInv(cfg, cs[i])
  }

  ghost predicate SomeEvidence(cs: seq<Candidate>) { exists i :: 0 <= i < |cs| && cs[i].freshCount > 0 }

  /** The invariant of every reachable state. */
  ghost predicate Inv(cfg: Config, s: State) {
    && CandidatesFit(cfg, s.candidates)
    && (JoinSafe(s.status) <==> s.verified.Some?)
    && (s.status == UtcVerified <==> s.verified == Some(0))
    && (s.verified.Some? ==> s.verified.value in cfg.offsets && s.lastFresh.Some? && SomeEvidence(s.candidates))
    && (s.lastFresh.Some? ==> s.firstRecv.Some?)
    && (s.lastFresh.None? ==> forall i :: 0 <= i < |s.candidates| ==> s.candidates[i].freshCount == 0)
  }

  lemma TouchKeeps(cfg: Config, c: Candidate, raw: int, recv: int)
    requires CandidateInv(cfg, c)
    ensures CandidateInv(cfg, Touch(cfg.gate, c, raw, recv))
  {
    assert |c.distinct + {raw}| <= |c.distinct| + 1;
  }

  lemma NotedKeeps(cfg: Config, s: State, raw: int, recv: int)
    requires Inv(cfg, s)
    ensures Inv(cfg, Noted(cfg, s, raw, recv))
  {
    var n := Noted(cfg, s, raw, recv);
    forall i | 0 <= i < |s.candidates| ensures CandidateInv(cfg, n.candidates[i]) {
      TouchKeeps(cfg, s.candidates[i], raw, recv);
    }
    if SomeEvidence(s.candidates) {
      var i :| 0 <= i < |s.candidates| && s.candidates[i].freshCount > 0;
      assert n.candidates[i].freshCount > 0;
    }
    if n.lastFresh.None? {
      forall i | 0 <= i < |s.candidates| ensures n.candidates[i].freshCount == 0 {
        assert !FreshUnder(cfg.gate, s.candidates[i], raw, recv);
      }
    }
  }

  /** What is verified was plausible and had evidence. */
  lemma BestHasEvidence(cfg: Config, cs: seq<Candidate>) returns (k: nat)
    requires CandidatesFit(cfg, cs) && Best(cfg, cs).Some?
    ensures k < |cs| && cs[k].freshCount > 0
    ensures Best(cfg, cs).value.offset in cfg.offsets
  {
    BestIsFirstMinimum(cfg, cs);
    k :| FirstMinimum(cfg, cs, k) && cs[k] == Best(cfg, cs).value;
    assert Dedup(cfg.offsets)[k] in Dedup(cfg.offsets);
  }

  lemma VerifyKeeps(cfg: Config, s: State)
    requires Inv(cfg, s)
    ensures Inv(cfg, Verify(cfg, s).0)
  {
    if s.status == Pending && Best(cfg, s.candidates).Some? {
      var k := BestHasEvidence(cfg, s.candidates);
      assert s.candidates[k].freshCount > 0;
    }
  }

  lemma StepKeeps(cfg: Config, s: State, op: Op)
    requires Inv(cfg, s)
    ensures Inv(cfg, Apply(cfg, s, op).0)
  {
    if op.Tick? {
      NotedKeeps(cfg, s, op.raw, op.recv);
      VerifyKeeps(cfg, Noted(cfg, s, op.raw, op.recv));
    }
  }

  /** The invariant holds after every sequence of ticks, staleness checks and reconnects. */
  lemma {:induction false} InvariantAlways(cfg: Config, cached: Option<int>, ops: seq<Op>)
    ensures Inv(cfg, Run(cfg, cached, ops))
  {
    if ops != [] {
      InvariantAlways(cfg, cached, ops[..|ops| - 1]);
      StepKeeps(cfg, Run(cfg, cached, ops[..|ops| - 1]), ops[|ops| - 1]);
    }
  }

  /** Right after a staleness check, joining is allowed only on ticks younger than the downgrade limit. */
  lemma CheckedJoinIsRecent(cfg: Config, cached: Option<int>, ops: seq<Op>, now: int)
    ensures var s := Run(cfg, cached, ops + [Evaluate(now)]);
            JoinSafe(s.status) ==> s.lastFresh.Some? && now - s.lastFresh.value < cfg.downgradeAfterMs
  {
    InvariantAlways(cfg, cached, ops);
    assert (ops + [Evaluate(now)])[..|ops|] == ops;
  }

  /** A downgrade or a reconnect remembers the withdrawn offset as a hint and forgets all evidence. */
  lemma WithdrawalKeepsOnlyAHint(cfg: Config, cached: Option<int>, ops: seq<Op>, op: Op)
    requires var s := Run(cfg, cached, ops);
             JoinSafe(s.status) && !op.Tick? && !JoinSafe(Apply(cfg, s, op).0.status)
    ensures var s, t := Run(cfg, cached, ops), Apply(cfg, Run(cfg, cached, ops), op).0;
            t.status == Pending && t.verified.None? && t.cached == s.verified && t.candidates == FreshCandidates(cfg.offsets)
  {
    InvariantAlways(cfg, cached, ops);
  }

  // ----- soundness and completeness

  /** Offsets lie further apart than the freshness window is wide. */
  ghost predicate Separated(cfg: Config, truth: int) {
    && truth in cfg.offsets
    && forall o :: o in cfg.offsets && o != truth ==>
         (o - truth) * 60_000 > cfg.gate.maxFutureJitterMs + cfg.gate.maxLiveTickAgeMs
         || (truth - o) * 60_000 > cfg.gate.maxFutureJitterMs + cfg.gate.maxLiveTickAgeMs
  }

  /**
   * The delay between a tick's time, by a broker clock that runs this many minutes ahead of UTC, and its
   * arrival is within the gate. Stated from the stamp itself, as the reference for the candidates' ages.
   */
  ghost predicate StampedLive(cfg: Config, offset: int, raw: int, recv: int) {
    -cfg.gate.maxFutureJitterMs <= recv - (raw - offset * 60_000) <= cfg.gate.maxLiveTickAgeMs
  }

  /** Every tick is live when read with the true offset. */
  ghost predicate Live(cfg: Config, truth: int, ops: seq<Op>) {
    forall i :: 0 <= i < |ops| && ops[i].Tick? ==> StampedLive(cfg, truth, ops[i].raw, ops[i].recv)
  }

  lemma OnlyTruthIsFresh(cfg: Config, truth: int, o: int, raw: int, recv: int)
    requires Separated(cfg, truth) && o in cfg.offsets && StampedLive(cfg, truth, raw, recv)
    ensures StampedLive(cfg, o, raw, recv) <==> o == truth
  {
    assert AgeUnder(o, raw, recv) == AgeUnder(truth, raw, recv) + (o - truth) * 60_000;
  }

  lemma TruthIndex(cfg: Config, truth: int) returns (t: nat)
    requires truth in cfg.offsets
    ensures t < |Dedup(cfg.offsets)| && Dedup(cfg.offsets)[t] == truth
  {
    assert truth in Dedup(cfg.offsets);
    t :| 0 <= t < |Dedup(cfg.offsets)| && Dedup(cfg.offsets)[t] == truth;
  }

  ghost predicate Reachable(cfg: Config, s: State) {
    exists cached, ops :: s == Run(cfg, cached, ops)
  }

  /**
   * Where an inference starts: at first, and after a downgrade or a reconnect. The ticks before may
   * have been read with any offset, and any offset may be remembered.
   */
  ghost predicate Clean(cfg: Config, s: State) { Reachable(cfg, s) && s.candidates == FreshCandidates(cfg.offsets) }

  lemma CleanMeans(cfg: Config, s: State)
    requires Clean(cfg, s)
    ensures Inv(cfg, s) && s.verified.None?
  {
    var cached, ops :| s == Run(cfg, cached, ops);
    InvariantAlways(cfg, cached, ops);
  }

  /** The clock starts clean whatever it remembers, and every withdrawal and reconnect makes it clean again. */
  lemma CleanPoints(cfg: Config, cached: Option<int>, ops: seq<Op>, op: Op)
    ensures Clean(cfg, Initial(cfg, cached))
    ensures var s, e := Run(cfg, cached, ops), Apply(cfg, Run(cfg, cached, ops), op);
            op.Reconnect? || e.1 == Some(Downgraded) ==> Clean(cfg, e.0)
  {
    assert Initial(cfg, cached) == Run(cfg, cached, []);
    assert (ops + [op])[..|ops|] == ops;
    assert Apply(cfg, Run(cfg, cached, ops), op).0 == Run(cfg, cached, ops + [op]);
  }

  ghost predicate Untouched(c: Candidate) { c == Candidate(c.offset, 0, {}, []) }

  /**
   * Only the true candidate ever collects evidence, nothing else is ever verified, and nothing else is
   * remembered but the hint that was there at the start.
   */
  ghost predicate OnlyTruth(cfg: Config, truth: int, hint: Option<int>, s: State) {
    && Inv(cfg, s)
    && (forall i :: 0 <= i < |s.candidates| && s.candidates[i].offset != truth ==> Untouched(s.candidates[i]))
    && (s.verified.Some? ==> s.verified == Some(truth))
    && (s.cached == hint || s.cached == Some(truth))
  }

  /** What a verification reports: nothing, unless another offset was remembered. */
  ghost function Shift(hint: Option<int>, truth: int): Option<Event> {
    if hint.None? || hint == Some(truth) then None
    else if truth - hint.value == 60 || hint.value - truth == 60 then Some(DstShift)
    else Some(OffsetChange)
  }

  lemma NotedKeepsOnlyTruth(cfg: Config, truth: int, hint: Option<int>, s: State, raw: int, recv: int)
    requires Separated(cfg, truth) && OnlyTruth(cfg, truth, hint, s)
    requires StampedLive(cfg, truth, raw, recv)
    ensures OnlyTruth(cfg, truth, hint, Noted(cfg, s, raw, recv))
  {
    NotedKeeps(cfg, s, raw, recv);
    var n := Noted(cfg, s, raw, recv);
    forall i | 0 <= i < |s.candidates| && s.candidates[i].offset != truth ensures n.candidates[i] == s.candidates[i] {
      assert Dedup(cfg.offsets)[i] in Dedup(cfg.offsets);
      OnlyTruthIsFresh(cfg, truth, s.candidates[i].offset, raw, recv);
    }
  }

  lemma BestIsTruth(cfg: Config, truth: int, hint: Option<int>, s: State)
    requires OnlyTruth(cfg, truth, hint, s)
    ensures Best(cfg, s.candidates).Some? ==> Best(cfg, s.candidates).value.offset == truth
  {
    BestIsFirstMinimum(cfg, s.candidates);
    if Best(cfg, s.candidates).Some? {
      var k: nat :| FirstMinimum(cfg, s.candidates, k) && s.candidates[k] == Best(cfg, s.candidates).value;
      assert |s.candidates[k].distinct| > 0;
    }
  }

  lemma VerifyKeepsOnlyTruth(cfg: Config, truth: int, hint: Option<int>, s: State)
    requires OnlyTruth(cfg, truth, hint, s)
    ensures var (t, event) := Verify(cfg, s);
            && OnlyTruth(cfg, truth, hint, t) && t.cached == s.cached && (s.verified.Some? ==> t.verified.Some?)
            && event == if s.verified.None? && t.verified.Some? then Shift(s.cached, truth) else None
  {
    VerifyKeeps(cfg, s);
    BestIsTruth(cfg, truth, hint, s);
  }

  lemma TickKeepsOnlyTruth(cfg: Config, truth: int, hint: Option<int>, s: State, raw: int, recv: int)
    requires Separated(cfg, truth) && OnlyTruth(cfg, truth, hint, s)
    requires StampedLive(cfg, truth, raw, recv)
    ensures var (t, event) := Observed(cfg, s, raw, recv);
            && OnlyTruth(cfg, truth, hint, t) && t.cached == s.cached && (s.verified.Some? ==> t.verified.Some?)
            && event == if s.verified.None? && t.verified.Some? then Shift(s.cached, truth) else None
  {
    NotedKeepsOnlyTruth(cfg, truth, hint, s, raw, recv);
    VerifyKeepsOnlyTruth(cfg, truth, hint, Noted(cfg, s, raw, recv));
  }

  lemma StepKeepsOnlyTruth(cfg: Config, truth: int, hint: Option<int>, s: State, op: Op)
    requires Separated(cfg, truth) && OnlyTruth(cfg, truth, hint, s) && Live(cfg, truth, [op])
    ensures OnlyTruth(cfg, truth, hint, Apply(cfg, s, op).0)
  {
    if op.Tick? {
      assert [op][0] == op;
      TickKeepsOnlyTruth(cfg, truth, hint, s, op.raw, op.recv);
    } else {
      StepKeeps(cfg, s, op);
    }
  }

  lemma LiveSplit(cfg: Config, truth: int, ops: seq<Op>)
    requires Live(cfg, truth, ops) && ops != []
    ensures Live(cfg, truth, ops[..|ops| - 1]) && Live(cfg, truth, [ops[|ops| - 1]])
  {
  }

  /**
   * Soundness: from any clean point, whatever is remembered there, live ticks never verify an offset
   * other than the true one, and nothing else is ever newly remembered.
   */
  lemma {:induction false} InferenceIsSound(cfg: Config, truth: int, s: State, ops: seq<Op>)
    requires Separated(cfg, truth) && Clean(cfg, s) && Live(cfg, truth, ops)
    ensures OnlyTruth(cfg, truth, s.cached, RunFrom(cfg, s, ops))
  {
    CleanMeans(cfg, s);
    if ops != [] {
      LiveSplit(cfg, truth, ops);
      InferenceIsSound(cfg, truth, s, ops[..|ops| - 1]);
      StepKeepsOnlyTruth(cfg, truth, s.cached, RunFrom(cfg, s, ops[..|ops| - 1]), ops[|ops| - 1]);
    }
  }

  // ----- reported shifts

  /** The shift events of a run, in order. */
  function Shifts(cfg: Config, s: State, ops: seq<Op>): seq<Event> {
    if ops == [] then []
    else
      var init, op := ops[..|ops| - 1], ops[|ops| - 1];
      var event := Apply(cfg, RunFrom(cfg, s, init), op).1;
      Shifts(cfg, s, init) + if event == Some(DstShift) || event == Some(OffsetChange) then [event.value] else []
  }

  /** Verified at some point of the run. */
  ghost predicate EverVerified(cfg: Config, s: State, ops: seq<Op>) {
    RunFrom(cfg, s, ops).verified.Some? || (ops != [] && EverVerified(cfg, s, ops[..|ops| - 1]))
  }

  /** The truth is known: it is verified, or remembered from a verification. */
  ghost predicate Learned(truth: int, s: State) { s.verified == Some(truth) || s.cached == Some(truth) }

  lemma LearnedStep(cfg: Config, truth: int, hint: Option<int>, s: State, op: Op)
    requires Separated(cfg, truth) && OnlyTruth(cfg, truth, hint, s) && Live(cfg, truth, [op])
    ensures var (t, event) := Apply(cfg, s, op);
            && (Learned(truth, t) <==> Learned(truth, s) || t.verified.Some?)
            && (if event == Some(DstShift) || event == Some(OffsetChange) then event else None)
                 == if !Learned(truth, s) && Learned(truth, t) then Shift(s.cached, truth) else None
  {
    StepKeepsOnlyTruth(cfg, truth, hint, s, op);
    if op.Tick? {
      assert [op][0] == op;
      TickKeepsOnlyTruth(cfg, truth, hint, s, op.raw, op.recv);
    }
  }

  /**
   * A shift is reported exactly once for a stale hint, by the tick that first verifies the true offset,
   * and never otherwise: over any run of ticks, checks and reconnects from a clean point.
   */
  lemma {:induction false} ShiftReportedOnce(cfg: Config, truth: int, s: State, ops: seq<Op>)
    requires Separated(cfg, truth) && Clean(cfg, s) && Live(cfg, truth, ops)
    ensures s.cached != Some(truth) ==> (Learned(truth, RunFrom(cfg, s, ops)) <==> EverVerified(cfg, s, ops))
    ensures Shifts(cfg, s, ops)
              == if EverVerified(cfg, s, ops) && Shift(s.cached, truth).Some? then [Shift(s.cached, truth).value] else []
  {
    CleanMeans(cfg, s);
    if ops != [] {
      var init, op := ops[..|ops| - 1], ops[|ops| - 1];
      LiveSplit(cfg, truth, ops);
      ShiftReportedOnce(cfg, truth, s, init);
      InferenceIsSound(cfg, truth, s, init);
      LearnedStep(cfg, truth, s.cached, RunFrom(cfg, s, init), op);
    }
  }

  // ----- completeness

  /** The evidence that completes an inference: enough fresh ticks with two different source times. */
  ghost predicate Enough(cfg: Config, c: Candidate) {
    c.freshCount >= cfg.requiredFreshTicks && |c.distinct| >= MIN_DISTINCT_TIME_MSC
  }

  /** Inside a gate of at most one second the percentile conditions always hold. */
  lemma TightGateEligible(cfg: Config, c: Candidate)
    requires cfg.gate.maxLiveTickAgeMs <= 1000 && CandidateInv(cfg, c)
    ensures Eligible(cfg, c) <==> Enough(cfg, c)
  {
    if Enough(cfg, c) {
      var r := Reals(c.residuals);
      assert r != [];
      forall v | v in r ensures (-cfg.gate.maxFutureJitterMs) as real <= v <= 1000.0 {
        var i :| 0 <= i < |r| && r[i] == v;
        assert c.residuals[i] in c.residuals;
      }
      InSampleRange(r, 0.5, (-cfg.gate.maxFutureJitterMs) as real, 1000.0);
      InSampleRange(r, 0.95, (-cfg.gate.maxFutureJitterMs) as real, 1000.0);
    }
  }

  ghost predicate VerifiedExactly(cfg: Config, truth: int, s: State) {
    forall i :: 0 <= i < |s.candidates| && s.candidates[i].offset == truth ==> (JoinSafe(s.status) <==> Enough(cfg, s.candidates[i]))
  }

  lemma UntouchedNotEligible(cfg: Config, c: Candidate)
    requires Untouched(c)
    ensures !Eligible(cfg, c)
  {
  }

  lemma VerifyIsExact(cfg: Config, truth: int, hint: Option<int>, s: State, t: nat)
    requires OnlyTruth(cfg, truth, hint, s) && !s.status.UnsafeForJoin? && cfg.gate.maxLiveTickAgeMs <= 1000
    requires t < |s.candidates| && s.candidates[t].offset == truth
    requires JoinSafe(s.status) ==> Enough(cfg, s.candidates[t])
    ensures JoinSafe(Verify(cfg, s).0.status) <==> Enough(cfg, s.candidates[t])
  {
    BestIsFirstMinimum(cfg, s.candidates);
    TightGateEligible(cfg, s.candidates[t]);
    forall i | 0 <= i < |s.candidates| && s.candidates[i].offset != truth ensures !Eligible(cfg, s.candidates[i]) {
      UntouchedNotEligible(cfg, s.candidates[i]);
    }
    forall i | 0 <= i < |s.candidates| && s.candidates[i].offset == truth ensures i == t {
      assert Dedup(cfg.offsets)[i] == Dedup(cfg.offsets)[t];
    }
  }

  lemma TickKeepsExact(cfg: Config, truth: int, hint: Option<int>, s: State, raw: int, recv: int)
    requires Separated(cfg, truth) && OnlyTruth(cfg, truth, hint, s) && VerifiedExactly(cfg, truth, s)
    requires StampedLive(cfg, truth, raw, recv) && cfg.gate.maxLiveTickAgeMs <= 1000
    ensures VerifiedExactly(cfg, truth, Observed(cfg, s, raw, recv).0)
  {
    NotedKeepsOnlyTruth(cfg, truth, hint, s, raw, recv);
    var n := Noted(cfg, s, raw, recv);
    forall t | 0 <= t < |n.candidates| && n.candidates[t].offset == truth
      ensures JoinSafe(Verify(cfg, n).0.status) <==> Enough(cfg, n.candidates[t])
    {
      assert FreshUnder(cfg.gate, s.candidates[t], raw, recv);
      DistinctGrows(s.candidates[t].distinct, raw);
      VerifyIsExact(cfg, truth, hint, n, t);
    }
  }

  lemma WithdrawalKeepsExact(cfg: Config, truth: int, s: State, op: Op)
    requires VerifiedExactly(cfg, truth, s) && !op.Tick?
    ensures VerifiedExactly(cfg, truth, Apply(cfg, s, op).0)
  {
    var t := Apply(cfg, s, op).0;
    assert t.candidates == s.candidates || (t.candidates == FreshCandidates(cfg.offsets) && !JoinSafe(t.status));
  }

  lemma DistinctGrows(d: set<int>, x: int)
    ensures |d| <= |d + {x}|
  {
    if x in d { assert d + {x} == d; }
  }

  /**
   * Completeness: from any clean point, with a gate of at most one second, the clock is verified exactly
   * while the true candidate holds enough evidence -- never earlier, never later.
   */
  lemma {:induction false} InferenceIsComplete(cfg: Config, truth: int, s: State, ops: seq<Op>)
    requires Separated(cfg, truth) && Clean(cfg, s) && Live(cfg, truth, ops)
    requires cfg.gate.maxLiveTickAgeMs <= 1000
    ensures VerifiedExactly(cfg, truth, RunFrom(cfg, s, ops))
  {
    CleanMeans(cfg, s);
    if ops != [] {
      var init, op := ops[..|ops| - 1], ops[|ops| - 1];
      LiveSplit(cfg, truth, ops);
      InferenceIsComplete(cfg, truth, s, init);
      InferenceIsSound(cfg, truth, s, init);
      if op.Tick? {
        TickKeepsExact(cfg, truth, s.cached, RunFrom(cfg, s, init), op.raw, op.recv);
      } else {
        WithdrawalKeepsExact(cfg, truth, RunFrom(cfg, s, init), op);
      }
    }
  }

  function RawTimes(ops: seq<Op>): set<int> {
    set i | 0 <= i < |ops| && ops[i].Tick? :: ops[i].raw
  }

  lemma RawTimesStep(ticks: seq<Op>)
    requires ticks != [] && ticks[|ticks| - 1].Tick?
    ensures RawTimes(ticks) == RawTimes(ticks[..|ticks| - 1]) + {ticks[|ticks| - 1].raw}
  {
    var init := ticks[..|ticks| - 1];
    forall x | x in RawTimes(ticks) ensures x in RawTimes(init) + {ticks[|ticks| - 1].raw} {
      var i :| 0 <= i < |ticks| && ticks[i].Tick? && ticks[i].raw == x;
      if i < |init| { assert init[i] == ticks[i]; }
    }
    forall x | x in RawTimes(init) ensures x in RawTimes(ticks) {
      var i :| 0 <= i < |init| && init[i].Tick? && init[i].raw == x;
      assert ticks[i] == init[i];
    }
  }

  /** How long each tick of a broker at this offset was under way, and the last 1024 of such delays. */
  ghost function Delays(truth: int, ticks: seq<Op>): seq<int>
    requires OnlyTicks(ticks)
  {
    seq(|ticks|, i requires 0 <= i < |ticks| => ticks[i].recv - (ticks[i].raw - truth * 60_000))
  }

  ghost function Recent(xs: seq<int>): seq<int> { if |xs| <= 1024 then xs else xs[|xs| - 1024..] }

  lemma RecentGrows(xs: seq<int>, x: int)
    ensures Recent(xs + [x]) == PushResidual(Recent(xs), x)
  {
  }

  /** Candidate t has seen n fresh ticks with these source times and these delays. */
  ghost predicate Evidence(s: State, t: nat, n: nat, raws: set<int>, delays: seq<int>) {
    && t < |s.candidates| && s.candidates[t].freshCount == n
    && s.candidates[t].distinct == raws && s.candidates[t].residuals == Recent(delays)
  }

  lemma TouchAdds(cfg: Config, c: Candidate, raw: int, recv: int, truth: int, delays: seq<int>, delay: int)
    requires c.offset == truth && StampedLive(cfg, truth, raw, recv) && c.residuals == Recent(delays)
    requires delay == recv - (raw - truth * 60_000)
    ensures Touch(cfg.gate, c, raw, recv) == Candidate(truth, c.freshCount + 1, c.distinct + {raw}, Recent(delays + [delay]))
  {
    assert AgeUnder(c.offset, raw, recv) == delay;
    RecentGrows(delays, delay);
  }

  lemma VerifyLeavesCandidates(cfg: Config, s: State)
    ensures Verify(cfg, s).0.candidates == s.candidates
  {
  }

  lemma TickAddsEvidence(cfg: Config, s: State, op: Op, t: nat, n: nat, raws: set<int>, delays: seq<int>, truth: int, delay: int)
    requires op.Tick? && Evidence(s, t, n, raws, delays) && s.candidates[t].offset == truth && StampedLive(cfg, truth, op.raw, op.recv)
    requires delay == op.recv - (op.raw - truth * 60_000)
    ensures Evidence(Noted(cfg, s, op.raw, op.recv), t, n + 1, raws + {op.raw}, delays + [delay])
  {
    TouchAdds(cfg, s.candidates[t], op.raw, op.recv, truth, delays, delay);
  }

  ghost predicate OnlyTicks(ops: seq<Op>) { forall i :: 0 <= i < |ops| ==> ops[i].Tick? }

  /** What candidate t holds after these ticks of a broker at this offset. */
  ghost predicate HoldsTicks(truth: int, s: State, t: nat, ticks: seq<Op>)
    requires OnlyTicks(ticks)
  {
    Evidence(s, t, |ticks|, RawTimes(ticks), Delays(truth, ticks))
  }

  lemma EvidenceGrows(cfg: Config, truth: int, s: State, ticks: seq<Op>, t: nat)
    requires Inv(cfg, s) && OnlyTicks(ticks) && ticks != [] && Live(cfg, truth, ticks)
    requires HoldsTicks(truth, s, t, ticks[..|ticks| - 1]) && Dedup(cfg.offsets)[t] == truth
    ensures var op := ticks[|ticks| - 1];
            HoldsTicks(truth, Noted(cfg, s, op.raw, op.recv), t, ticks) && HoldsTicks(truth, Apply(cfg, s, op).0, t, ticks)
  {
    var init, op := ticks[..|ticks| - 1], ticks[|ticks| - 1];
    RawTimesStep(ticks);
    var delay := op.recv - (op.raw - truth * 60_000);
    assert Delays(truth, ticks) == Delays(truth, init) + [delay];
    TickAddsEvidence(cfg, s, op, t, |init|, RawTimes(init), Delays(truth, init), truth, delay);
    VerifyLeavesCandidates(cfg, Noted(cfg, s, op.raw, op.recv));
  }

  lemma {:induction false} InvFrom(cfg: Config, s: State, ops: seq<Op>)
    requires Inv(cfg, s)
    ensures Inv(cfg, RunFrom(cfg, s, ops))
  {
    if ops != [] {
      InvFrom(cfg, s, ops[..|ops| - 1]);
      StepKeeps(cfg, RunFrom(cfg, s, ops[..|ops| - 1]), ops[|ops| - 1]);
    }
  }

  lemma NothingHeld(cfg: Config, truth: int, s: State, t: nat)
    requires s.candidates == FreshCandidates(cfg.offsets) && t < |Dedup(cfg.offsets)|
    ensures HoldsTicks(truth, s, t, [])
  {
  }

  /** Evidence counts the ticks since the candidates were last cleared. */
  lemma {:induction false} EvidenceCounts(cfg: Config, truth: int, s: State, ticks: seq<Op>, t: nat)
    requires Clean(cfg, s) && Live(cfg, truth, ticks) && OnlyTicks(ticks)
    requires t < |Dedup(cfg.offsets)| && Dedup(cfg.offsets)[t] == truth
    ensures HoldsTicks(truth, RunFrom(cfg, s, ticks), t, ticks)
  {
    if ticks == [] {
      NothingHeld(cfg, truth, s, t);
    } else {
      EvidenceCounts(cfg, truth, s, ticks[..|ticks| - 1], t);
      CleanMeans(cfg, s);
      InvFrom(cfg, s, ticks[..|ticks| - 1]);
      EvidenceGrows(cfg, truth, RunFrom(cfg, s, ticks[..|ticks| - 1]), ticks, t);
    }
  }

  /**
   * From any clean point, whatever came before and whatever is remembered, live ticks verify the true
   * offset exactly when the required number has arrived with at least two distinct source times.
   */
  lemma VerifiedAfterRequiredTicks(cfg: Config, truth: int, s: State, ticks: seq<Op>)
    requires Separated(cfg, truth) && Clean(cfg, s) && Live(cfg, truth, ticks) && OnlyTicks(ticks)
    requires cfg.gate.maxLiveTickAgeMs <= 1000
    ensures RunFrom(cfg, s, ticks).verified
              == if |ticks| >= cfg.requiredFreshTicks && |RawTimes(ticks)| >= MIN_DISTINCT_TIME_MSC then Some(truth) else None
  {
    var t := TruthIndex(cfg, truth);
    EvidenceCounts(cfg, truth, s, ticks, t);
    InferenceIsSound(cfg, truth, s, ticks);
    InferenceIsComplete(cfg, truth, s, ticks);
  }

  // ----- beyond one second

  ghost predicate AllLate(c: Candidate) { forall a :: a in c.residuals ==> a > 1000 }

  /** With a wider gate fresh evidence alone is not enough: ticks that are all later than one second never verify. */
  lemma LateTicksNeverEligible(cfg: Config, c: Candidate)
    requires AllLate(c)
    ensures !Eligible(cfg, c)
  {
    var r := Reals(c.residuals);
    if r != [] {
      var hi := 1 + MaxOf(c.residuals);
      forall v | v in r ensures 1001.0 <= v <= hi as real {
        var i :| 0 <= i < |r| && r[i] == v;
        assert c.residuals[i] in c.residuals;
      }
      InSampleRange(r, 0.5, 1001.0, hi as real);
    }
  }

  function MaxOf(xs: seq<int>): (m: int)
    ensures forall x :: x in xs ==> x <= m
  {
    if xs == [] then 0
    else
      var rest, last := MaxOf(xs[..|xs| - 1]), xs[|xs| - 1];
      assert forall x :: x in xs ==> x in xs[..|xs| - 1] || x == last;
      if last > rest then last else rest
  }

  lemma PushedMembers(residuals: seq<int>, age: int)
    ensures forall a :: a in PushResidual(residuals, age) ==> a in residuals || a == age
  {
  }

  ghost predicate AllCandidatesLate(s: State) {
    forall i :: 0 <= i < |s.candidates| ==> AllLate(s.candidates[i])
  }

  lemma LateTickKeepsLate(cfg: Config, truth: int, hint: Option<int>, s: State, raw: int, recv: int)
    requires Separated(cfg, truth) && OnlyTruth(cfg, truth, hint, s) && AllCandidatesLate(s) && !JoinSafe(s.status)
    requires StampedLive(cfg, truth, raw, recv) && recv - (raw - truth * 60_000) > 1000
    ensures AllCandidatesLate(Observed(cfg, s, raw, recv).0) && !JoinSafe(Observed(cfg, s, raw, recv).0.status)
  {
    var n := Noted(cfg, s, raw, recv);
    forall i | 0 <= i < |n.candidates| ensures AllLate(n.candidates[i]) && !Eligible(cfg, n.candidates[i]) {
      assert Dedup(cfg.offsets)[i] in Dedup(cfg.offsets);
      OnlyTruthIsFresh(cfg, truth, s.candidates[i].offset, raw, recv);
      PushedMembers(s.candidates[i].residuals, AgeUnder(s.candidates[i].offset, raw, recv));
      LateTicksNeverEligible(cfg, n.candidates[i]);
    }
    BestIsFirstMinimum(cfg, n.candidates);
  }

  /**
   * The one-second limit in the completeness result is needed: a stream whose every tick is live
   * but more than a second old is never verified, however long it runs.
   */
  lemma {:induction false} LateStreamNeverVerifies(cfg: Config, truth: int, s: State, ops: seq<Op>)
    requires Separated(cfg, truth) && Clean(cfg, s) && Live(cfg, truth, ops)
    requires forall i :: 0 <= i < |ops| && ops[i].Tick? ==> ops[i].recv - (ops[i].raw - truth * 60_000) > 1000
    ensures AllCandidatesLate(RunFrom(cfg, s, ops)) && !JoinSafe(RunFrom(cfg, s, ops).status)
  {
    CleanMeans(cfg, s);
    if ops != [] {
      var init, op := ops[..|ops| - 1], ops[|ops| - 1];
      LiveSplit(cfg, truth, ops);
      LateStreamNeverVerifies(cfg, truth, s, init);
      InferenceIsSound(cfg, truth, s, init);
      if op.Tick? { LateTickKeepsLate(cfg, truth, s.cached, RunFrom(cfg, s, init), op.raw, op.recv); }
    }
  }

  /** The oldest live ticks the gate admits, one per millisecond of source time. */
  function OldestLive(cfg: Config, truth: int, n: nat): (r: seq<Op>)
    ensures |r| == n
    ensures forall i :: 0 <= i < n ==> r[i].Tick? && r[i].raw == i && r[i].recv - (r[i].raw - truth * 60_000) == cfg.gate.maxLiveTickAgeMs
  {
    seq(n, i requires 0 <= i < n => Tick(i, i - truth * 60_000 + cfg.gate.maxLiveTickAgeMs))
  }

  lemma TwoTimes(cfg: Config, truth: int, n: nat)
    requires n >= 2
    ensures |RawTimes(OldestLive(cfg, truth, n))| >= 2
  {
    var ticks := OldestLive(cfg, truth, n);
    var raws := RawTimes(ticks);
    assert ticks[0].raw in raws && ticks[1].raw in raws;
    assert raws == {0, 1} + (raws - {0, 1});
  }

  /** With a gate wider than one second, from every clean point a live stream holds all the evidence asked for and stays unverified. */
  lemma WideGateMissesEvidence(cfg: Config, truth: int, s: State) returns (ops: seq<Op>)
    requires Separated(cfg, truth) && Clean(cfg, s)
    requires cfg.gate.maxLiveTickAgeMs > 1000 && -cfg.gate.maxFutureJitterMs <= cfg.gate.maxLiveTickAgeMs
    ensures Live(cfg, truth, ops) && !VerifiedExactly(cfg, truth, RunFrom(cfg, s, ops))
  {
    var n: nat := if cfg.requiredFreshTicks > MIN_DISTINCT_TIME_MSC then cfg.requiredFreshTicks else MIN_DISTINCT_TIME_MSC;
    ops := OldestLive(cfg, truth, n);
    var t := TruthIndex(cfg, truth);
    EvidenceCounts(cfg, truth, s, ops, t);
    TwoTimes(cfg, truth, n);
    InferenceIsSound(cfg, truth, s, ops);
    LateStreamNeverVerifies(cfg, truth, s, ops);
    assert Enough(cfg, RunFrom(cfg, s, ops).candidates[t]);
  }

  /** From this point, every live stream is verified exactly while the true candidate holds enough evidence. */
  ghost predicate AlwaysExact(cfg: Config, truth: int, s: State) {
    forall ops :: Live(cfg, truth, ops) ==> VerifiedExactly(cfg, truth, RunFrom(cfg, s, ops))
  }

  /**
   * The one-second limit is exact: when some age is fresh at all, from any clean point enough evidence
   * and verification coincide on every live stream if and only if the gate admits no tick older than
   * one second.
   */
  lemma ExactIffGateWithinOneSecond(cfg: Config, truth: int, s: State)
    requires Separated(cfg, truth) && Clean(cfg, s) && -cfg.gate.maxFutureJitterMs <= cfg.gate.maxLiveTickAgeMs
    ensures AlwaysExact(cfg, truth, s) <==> cfg.gate.maxLiveTickAgeMs <= 1000
  {
    if cfg.gate.maxLiveTickAgeMs <= 1000 {
      forall ops | Live(cfg, truth, ops) ensures VerifiedExactly(cfg, truth, RunFrom(cfg, s, ops)) {
        InferenceIsComplete(cfg, truth, s, ops);
      }
    } else {
      var ops := WideGateMissesEvidence(cfg, truth, s);
    }
  }

  // ----- how long a verification lasts

  /** Some plausible offset reads this tick as fresh. */
  ghost predicate FreshTick(cfg: Config, op: Op) {
    op.Tick? && exists o :: o in cfg.offsets && StampedLive(cfg, o, op.raw, op.recv)
  }

  lemma FreshTickMeans(cfg: Config, s: State, op: Op)
    requires Inv(cfg, s) && op.Tick?
    ensures AnyFresh(cfg.gate, s.candidates, op.raw, op.recv) <==> FreshTick(cfg, op)
  {
    if FreshTick(cfg, op) {
      var o :| o in cfg.offsets && StampedLive(cfg, o, op.raw, op.recv);
      var t := TruthIndex(cfg, o);
      assert FreshUnder(cfg.gate, s.candidates[t], op.raw, op.recv);
    }
    if AnyFresh(cfg.gate, s.candidates, op.raw, op.recv) {
      var i :| 0 <= i < |s.candidates| && FreshUnder(cfg.gate, s.candidates[i], op.raw, op.recv);
      assert Dedup(cfg.offsets)[i] in Dedup(cfg.offsets);
    }
  }

  /** When the last tick arrived that some plausible offset reads as fresh. */
  ghost function LastFresh(cfg: Config, before: Option<int>, ops: seq<Op>): Option<int> {
    if ops == [] then before
    else if FreshTick(cfg, ops[|ops| - 1]) then Some(ops[|ops| - 1].recv)
    else LastFresh(cfg, before, ops[..|ops| - 1])
  }

  /** No reconnect, and every check comes less than the downgrade limit after such a tick. */
  ghost predicate CheckedInTime(cfg: Config, before: Option<int>, ops: seq<Op>) {
    ops == [] ||
      var init, op := ops[..|ops| - 1], ops[|ops| - 1];
      var latest := LastFresh(cfg, before, init);
      && CheckedInTime(cfg, before, init) && !op.Reconnect?
      && (op.Evaluate? ==> latest.Some? && op.now - latest.value < cfg.downgradeAfterMs)
  }

  ghost predicate JoinSafeThroughout(cfg: Config, s: State, ops: seq<Op>) {
    JoinSafe(RunFrom(cfg, s, ops).status) && (ops == [] || JoinSafeThroughout(cfg, s, ops[..|ops| - 1]))
  }

  /** What a verified clock keeps while it stays verified. */
  ghost predicate Holds(s: State, t: State, latest: Option<int>) {
    t.status == s.status && t.verified == s.verified && t.lastEvent == s.lastEvent && t.lastFresh == latest
  }

  lemma StepHolds(cfg: Config, s: State, op: Op)
    requires Inv(cfg, s) && JoinSafe(s.status)
    ensures var (t, event) := Apply(cfg, s, op);
            var latest := if FreshTick(cfg, op) then Some(op.recv) else s.lastFresh;
            if op.Reconnect? || (op.Evaluate? && op.now - s.lastFresh.value >= cfg.downgradeAfterMs) then !JoinSafe(t.status)
            else Holds(s, t, latest) && event.None?
  {
    if op.Tick? { FreshTickMeans(cfg, s, op); }
  }

  /**
   * A verification lasts exactly until a reconnect or a check that finds no tick fresh under any plausible
   * offset within the downgrade limit; until then nothing changes and nothing is reported.
   */
  lemma {:induction false} VerifiedUntilGap(cfg: Config, s: State, ops: seq<Op>)
    requires Inv(cfg, s) && JoinSafe(s.status)
    ensures Inv(cfg, RunFrom(cfg, s, ops))
    ensures JoinSafeThroughout(cfg, s, ops) <==> CheckedInTime(cfg, s.lastFresh, ops)
    ensures CheckedInTime(cfg, s.lastFresh, ops) ==> Holds(s, RunFrom(cfg, s, ops), LastFresh(cfg, s.lastFresh, ops))
  {
    if ops != [] {
      var init, op := ops[..|ops| - 1], ops[|ops| - 1];
      VerifiedUntilGap(cfg, s, init);
      StepKeeps(cfg, RunFrom(cfg, s, init), op);
      if CheckedInTime(cfg, s.lastFresh, init) { StepHolds(cfg, RunFrom(cfg, s, init), op); }
    }
  }

  /** Ticks, each check coming soon after the tick before it. */
  ghost predicate ChecksFollowTicks(cfg: Config, ops: seq<Op>) {
    forall i :: 0 <= i < |ops| ==> TickOrCheck(cfg, ops, i)
  }

  ghost predicate TickOrCheck(cfg: Config, ops: seq<Op>, i: nat)
    requires i < |ops|
  {
    ops[i].Tick? || (ops[i].Evaluate? && i > 0 && ops[i - 1].Tick? && ops[i].now - ops[i - 1].recv < cfg.downgradeAfterMs)
  }

  lemma {:induction false} LiveChecksAreInTime(cfg: Config, truth: int, before: Option<int>, ops: seq<Op>)
    requires truth in cfg.offsets && Live(cfg, truth, ops) && ChecksFollowTicks(cfg, ops)
    ensures CheckedInTime(cfg, before, ops)
  {
    if ops != [] {
      var init := ops[..|ops| - 1];
      forall i | 0 <= i < |init| ensures TickOrCheck(cfg, init, i) { assert TickOrCheck(cfg, ops, i); }
      LiveChecksAreInTime(cfg, truth, before, init);
      assert TickOrCheck(cfg, ops, |ops| - 1);
      if ops[|ops| - 1].Evaluate? {
        assert init[|init| - 1] == ops[|ops| - 2];
        assert FreshTick(cfg, init[|init| - 1]);
      }
    }
  }

  /**
   * A change of the broker's offset goes unnoticed while ticks keep coming: ticks live under another
   * plausible offset refresh the staleness timer, so a verified clock keeps its offset, stays join-safe
   * and reports nothing, although it reads not one of these ticks as fresh.
   */
  lemma ShiftGoesUnnoticed(cfg: Config, truth: int, s: State, ops: seq<Op>)
    requires Reachable(cfg, s) && s.verified.Some? && s.verified != Some(truth)
    requires Separated(cfg, truth) && Live(cfg, truth, ops) && ChecksFollowTicks(cfg, ops)
    ensures JoinSafeThroughout(cfg, s, ops)
    ensures var t := RunFrom(cfg, s, ops); t.verified == s.verified && t.lastEvent == s.lastEvent
    ensures forall i :: 0 <= i < |ops| && ops[i].Tick? ==> !StampedLive(cfg, s.verified.value, ops[i].raw, ops[i].recv)
  {
    var cached, past :| s == Run(cfg, cached, past);
    InvariantAlways(cfg, cached, past);
    LiveChecksAreInTime(cfg, truth, s.lastFresh, ops);
    VerifiedUntilGap(cfg, s, ops);
    forall i | 0 <= i < |ops| && ops[i].Tick? ensures !StampedLive(cfg, s.verified.value, ops[i].raw, ops[i].recv) {
      OnlyTruthIsFresh(cfg, truth, s.verified.value, ops[i].raw, ops[i].recv);
    }
  }
}
