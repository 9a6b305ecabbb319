/**
 * The stage loop of one day: trust is folded over the graph, then each stage is skipped, reused
 * or executed, and a failure may end the day early.
 */
module DayOrchestrator {
  import opened Sequences
  import opened StageDependencies

  /** One day: what is on disk beforehand, and what the runner would answer for each stage. */
  datatype Day = Day(
    graph: seq<StageSpec>,
    dryRun: bool,
    rebuildExisting: bool,
    force: bool,
    continueOnFailure: bool,
    raw: Trust,
    present: string -> bool,
    runs: string -> bool)

  datatype Outcome = Outcome(
    verdicts: map<string, Verdict>,
    status: map<string, StageStatus>,
    records: map<string, StageRecord>,
    stages: seq<StageRecord>,
    executed: seq<string>,
    final: DayStatus,
    staleWarning: bool)

  /** Names are unique and every dependency is the synthetic download or an earlier stage. */
  ghost predicate Topological(graph: seq<StageSpec>) {
    && (forall i, j :: 0 <= i < j < |graph| ==> graph[i].name != graph[j].name)
    && (forall i :: 0 <= i < |graph| ==> graph[i].name != SYNTHETIC_CME_DOWNLOAD)
    && (forall i, dep :: 0 <= i < |graph| && dep in graph[i].dependsOn && dep != SYNTHETIC_CME_DOWNLOAD ==> NamedBefore(graph, i, dep))
  }

  ghost predicate NamedBefore(graph: seq<StageSpec>, i: nat, dep: string)
    requires i <= |graph|
  {
    exists j :: 0 <= j < i && graph[j].name == dep
  }

  lemma DefaultGraphIsTopological()
    ensures Topological(DEFAULT_STAGE_GRAPH)
  {
    var g := DEFAULT_STAGE_GRAPH;
    forall i, dep | 0 <= i < |g| && dep in g[i].dependsOn && dep != SYNTHETIC_CME_DOWNLOAD ensures NamedBefore(g, i, dep) {
      assert i > 0 && (g[i - 1].name == dep || (i == 6 && g[4].name == dep));
    }
  }

  // ----- the rule each stage obeys

  /** Executes: reached, unblocked, and neither reused nor refused. */
  ghost predicate Executes(day: Day, spec: StageSpec, status: map<string, StageStatus>) {
    && !day.dryRun
    && (forall dep :: dep in spec.dependsOn ==> !DependencyFailed(dep, status))
    && (day.present(spec.name) ==> day.rebuildExisting)
  }

  ghost predicate SomeUpstreamFailed(spec: StageSpec, status: map<string, StageStatus>) {
    exists dep :: dep in spec.dependsOn && DependencyFailed(dep, status)
  }

  ghost function Decide(day: Day, spec: StageSpec, v: Verdict, status: map<string, StageStatus>): StageStatus {
    if SomeUpstreamFailed(spec, status) then SkippedUpstreamFailed
    else if day.dryRun then StageOk
    else if day.present(spec.name) && !day.rebuildExisting then (if v.intact then SkippedTrusted else SkippedUntrusted)
    else if day.runs(spec.name) then StageOk
    else StageFail
  }

  ghost predicate VerdictsFor(day: Day, verdicts: map<string, Verdict>, k: nat)
    requires k <= |day.graph|
  {
    forall i :: 0 <= i < k ==>
      var spec := day.graph[i];
      && spec.name in verdicts
      && verdicts[spec.name] == VerdictOf(spec, day.present(spec.name), day.raw, verdicts)
  }

  /** The first k stages are decided and no other stage is. */
  ghost predicate Decided(day: Day, verdicts: map<string, Verdict>, status: map<string, StageStatus>, k: nat)
    requires k <= |day.graph| && VerdictsFor(day, verdicts, |day.graph|)
  {
    && (forall i :: 0 <= i < k ==>
          var spec := day.graph[i];
          spec.name in status && status[spec.name] == Decide(day, spec, verdicts[spec.name], status))
    && (forall n :: n in status ==> NamedBefore(day.graph, k, n))
  }

  ghost predicate FailedAt(day: Day, status: map<string, StageStatus>, i: nat)
    requires i < |day.graph|
  {
    day.graph[i].name in status && status[day.graph[i].name] == StageFail
  }

  ghost predicate NoFailureBefore(day: Day, status: map<string, StageStatus>, k: nat)
    requires k <= |day.graph|
  {
    forall i :: 0 <= i < k ==> !FailedAt(day, status, i)
  }

  /** The loop stops early exactly behind the first failure that the configuration does not tolerate. */
  ghost predicate StopsAt(day: Day, status: map<string, StageStatus>, k: nat)
    requires k <= |day.graph|
  {
    && (k < |day.graph| ==> 0 < k && !day.continueOnFailure && FailedAt(day, status, k - 1))
    && (!day.continueOnFailure && 0 < k ==> NoFailureBefore(day, status, k - 1))
  }

  ghost predicate Ended(day: Day, o: Outcome, k: nat)
    requires k <= |day.graph|
  {
    && VerdictsFor(day, o.verdicts, |day.graph|)
    && Decided(day, o.verdicts, o.status, k)
    && StopsAt(day, o.status, k)
  }

  ghost function ExecutedNames(day: Day, status: map<string, StageStatus>, k: nat): seq<string>
    requires k <= |day.graph|
  {
    if k == 0 then []
    else
      var n := day.graph[k - 1].name;
      ExecutedNames(day, status, k - 1)
        + if !day.dryRun && n in status && status[n] in {StageOk, StageFail} then [n] else []
  }

  // ----- the loops

  lemma VerdictsExtend(day: Day, verdicts: map<string, Verdict>, k: nat)
    requires Topological(day.graph) && k < |day.graph| && VerdictsFor(day, verdicts, k)
    requires forall n :: n in verdicts ==> NamedBefore(day.graph, k, n)
    ensures var spec := day.graph[k];
            var v := VerdictOf(spec, day.present(spec.name), day.raw, verdicts);
            VerdictsFor(day, verdicts[spec.name := v], k + 1)
  {
    var spec := day.graph[k];
    var v := VerdictOf(spec, day.present(spec.name), day.raw, verdicts);
    var next := verdicts[spec.name := v];
    forall i | 0 <= i <= k
      ensures VerdictOf(day.graph[i], day.present(day.graph[i].name), day.raw, verdicts)
           == VerdictOf(day.graph[i], day.present(day.graph[i].name), day.raw, next)
    {
      forall dep | dep in day.graph[i].dependsOn ensures DependencyTrusted(dep, verdicts) == DependencyTrusted(dep, next) {
        if dep != SYNTHETIC_CME_DOWNLOAD { assert NamedBefore(day.graph, i, dep); }
      }
    }
  }

  method FoldTrust(day: Day) returns (verdicts: map<string, Verdict>)
    requires Topological(day.graph)
    ensures VerdictsFor(day, verdicts, |day.graph|)
  {
    verdicts := map[];
    for k := 0 to |day.graph|
      invariant VerdictsFor(day, verdicts, k)
      invariant forall n :: n in verdicts ==> NamedBefore(day.graph, k, n)
    {
      var spec := day.graph[k];
      VerdictsExtend(day, verdicts, k);
      var v := EvaluateStageTrust(spec, day.present(spec.name), day.raw, verdicts);
      forall n | n in verdicts ensures NamedBefore(day.graph, k + 1, n) { assert NamedBefore(day.graph, k, n); }
      assert day.graph[k].name == spec.name;
      verdicts := verdicts[spec.name := v];
    }
  }

  /** A stage never depends on itself or a later stage, so a later status does not change its own. */
  lemma LaterStatusIgnored(day: Day, status: map<string, StageStatus>, k: nat, i: nat, s: StageStatus)
    requires Topological(day.graph) && i <= k < |day.graph|
    ensures SomeUpstreamFailed(day.graph[i], status) == SomeUpstreamFailed(day.graph[i], status[day.graph[k].name := s])
  {
    var next := status[day.graph[k].name := s];
    forall dep | dep in day.graph[i].dependsOn ensures DependencyFailed(dep, status) == DependencyFailed(dep, next) {
      if dep != SYNTHETIC_CME_DOWNLOAD { assert NamedBefore(day.graph, i, dep); }
    }
  }

  lemma SameDecision(day: Day, spec: StageSpec, v: Verdict, a: map<string, StageStatus>, b: map<string, StageStatus>)
    requires SomeUpstreamFailed(spec, a) == SomeUpstreamFailed(spec, b)
    ensures Decide(day, spec, v, a) == Decide(day, spec, v, b)
  {
  }

  lemma DecisionStays(day: Day, verdicts: map<string, Verdict>, status: map<string, StageStatus>, k: nat, i: nat)
    requires Topological(day.graph) && i <= k < |day.graph| && VerdictsFor(day, verdicts, |day.graph|)
    requires Decided(day, verdicts, status, k)
    ensures var spec, n := day.graph[k], day.graph[i].name;
            var next := status[spec.name := Decide(day, spec, verdicts[spec.name], status)];
            n in next && next[n] == Decide(day, day.graph[i], verdicts[n], next)
  {
    var spec, n := day.graph[k], day.graph[i].name;
    var s := Decide(day, spec, verdicts[spec.name], status);
    LaterStatusIgnored(day, status, k, i, s);
    SameDecision(day, day.graph[i], verdicts[n], status, status[spec.name := s]);
    if i < k { assert n != spec.name && status[n] == Decide(day, day.graph[i], verdicts[n], status); }
  }

  lemma DecidedExtend(day: Day, verdicts: map<string, Verdict>, status: map<string, StageStatus>, k: nat)
    requires Topological(day.graph) && k < |day.graph| && VerdictsFor(day, verdicts, |day.graph|)
    requires Decided(day, verdicts, status, k)
    ensures var spec := day.graph[k];
            Decided(day, verdicts, status[spec.name := Decide(day, spec, verdicts[spec.name], status)], k + 1)
  {
    var spec := day.graph[k];
    var next := status[spec.name := Decide(day, spec, verdicts[spec.name], status)];
    forall i | 0 <= i <= k
      ensures day.graph[i].name in next
      ensures next[day.graph[i].name] == Decide(day, day.graph[i], verdicts[day.graph[i].name], next)
    {
      DecisionStays(day, verdicts, status, k, i);
    }
    forall n | n in next ensures NamedBefore(day.graph, k + 1, n) {
      if n == spec.name { assert day.graph[k].name == n; } else { assert NamedBefore(day.graph, k, n); }
    }
  }

  lemma {:induction false} ExecutedStable(day: Day, a: map<string, StageStatus>, name: string, s: StageStatus, k: nat)
    requires k <= |day.graph| && forall i :: 0 <= i < k ==> day.graph[i].name != name
    ensures ExecutedNames(day, a[name := s], k) == ExecutedNames(day, a, k)
  {
    if k > 0 { ExecutedStable(day, a, name, s, k - 1); }
  }

  /** What one record says about the decision behind it. */
  ghost predicate RecordFits(day: Day, spec: StageSpec, v: Verdict, s: StageStatus, r: StageRecord) {
    && r.name == spec.name && r.present == day.present(spec.name)
    && r.status == (if day.dryRun && s == StageOk then DryRun else s)
    && (r.oldArtifactUsed <==> s == SkippedTrusted || (s == SkippedUpstreamFailed && r.present))
    && (r.forcePassed <==> s in {StageOk, StageFail} && spec.supportsForce && (day.force || (day.rebuildExisting && r.present)))
    && (r.blockedBy.Some? <==> s == SkippedUpstreamFailed)
    && r.trust == (if s == SkippedUntrusted then ExistsButUntrusted else v.trust)
  }

  ghost predicate RecordsFit(day: Day, verdicts: map<string, Verdict>, status: map<string, StageStatus>,
                             records: map<string, StageRecord>, stages: seq<StageRecord>, k: nat)
    requires k <= |day.graph| && VerdictsFor(day, verdicts, |day.graph|) && Decided(day, verdicts, status, k)
  {
    && |stages| == k && records.Keys == status.Keys
    && forall i :: 0 <= i < k ==> RecordAt(day, day.graph[i], verdicts, status, records, stages[i])
  }

  ghost predicate RecordAt(day: Day, spec: StageSpec, verdicts: map<string, Verdict>, status: map<string, StageStatus>,
                           records: map<string, StageRecord>, r: StageRecord) {
    && spec.name in records && spec.name in verdicts && spec.name in status && r == records[spec.name]
    && RecordFits(day, spec, verdicts[spec.name], status[spec.name], r)
  }

  /** The branches of the loop body, in the order they are tried. */
  method DecideStage(day: Day, spec: StageSpec, v: Verdict, status: map<string, StageStatus>)
    returns (s: StageStatus, r: StageRecord, ran: bool)
    ensures s == Decide(day, spec, v, status)
    ensures RecordFits(day, spec, v, s, r)
    ensures ran <==> !day.dryRun && s in {StageOk, StageFail}
    ensures ran <==> Executes(day, spec, status)
  {
    var present := day.present(spec.name);
    var forcePassed := (day.force && spec.supportsForce) || (day.rebuildExisting && present && spec.supportsForce);
    var blocked := FirstUpstreamFailed(spec, status);
    if blocked.Some? {
      return SkippedUpstreamFailed, StageRecord(spec.name, SkippedUpstreamFailed, present, v.trust, present, false, blocked), false;
    }
    if day.dryRun {
      return StageOk, StageRecord(spec.name, DryRun, present, v.trust, false, forcePassed, None), false;
    }
    if present && v.intact && !day.rebuildExisting {
      return SkippedTrusted, StageRecord(spec.name, SkippedTrusted, true, v.trust, true, false, None), false;
    }
    if present && !v.intact && !day.rebuildExisting {
      return SkippedUntrusted, StageRecord(spec.name, SkippedUntrusted, true, ExistsButUntrusted, false, false, None), false;
    }
    s := if day.runs(spec.name) then StageOk else StageFail;
    return s, StageRecord(spec.name, s, present, v.trust, false, forcePassed, None), true;
  }

  lemma RecordsExtend(day: Day, verdicts: map<string, Verdict>, status: map<string, StageStatus>,
                      records: map<string, StageRecord>, stages: seq<StageRecord>, k: nat, s: StageStatus, r: StageRecord)
    requires Topological(day.graph) && k < |day.graph| && VerdictsFor(day, verdicts, |day.graph|)
    requires Decided(day, verdicts, status, k) && Decided(day, verdicts, status[day.graph[k].name := s], k + 1)
    requires RecordsFit(day, verdicts, status, records, stages, k)
    requires RecordFits(day, day.graph[k], verdicts[day.graph[k].name], s, r)
    ensures var n := day.graph[k].name;
            RecordsFit(day, verdicts, status[n := s], records[n := r], stages + [r], k + 1)
  {
    var n := day.graph[k].name;
    forall i | 0 <= i <= k
      ensures RecordAt(day, day.graph[i], verdicts, status[n := s], records[n := r], (stages + [r])[i])
    {
      if i < k {
        assert RecordAt(day, day.graph[i], verdicts, status, records, stages[i]);
        assert day.graph[i].name != n;
      }
    }
  }

  datatype Progress = Progress(status: map<string, StageStatus>, records: map<string, StageRecord>,
                               stages: seq<StageRecord>, executed: seq<string>)

  ghost predicate InProgress(day: Day, verdicts: map<string, Verdict>, g: Progress, k: nat) {
    && k <= |day.graph| && VerdictsFor(day, verdicts, |day.graph|)
    && Decided(day, verdicts, g.status, k)
    && RecordsFit(day, verdicts, g.status, g.records, g.stages, k)
    && g.executed == ExecutedNames(day, g.status, k)
  }

  function Advance(g: Progress, name: string, s: StageStatus, r: StageRecord, ran: bool): Progress {
    Progress(g.status[name := s], g.records[name := r], g.stages + [r], if ran then g.executed + [name] else g.executed)
  }

  lemma AdvanceKeeps(day: Day, verdicts: map<string, Verdict>, g: Progress, k: nat, s: StageStatus, r: StageRecord, ran: bool)
    requires Topological(day.graph) && k < |day.graph| && InProgress(day, verdicts, g, k)
    requires var spec := day.graph[k];
             && s == Decide(day, spec, verdicts[spec.name], g.status)
             && RecordFits(day, spec, verdicts[spec.name], s, r)
    requires ran <==> !day.dryRun && s in {StageOk, StageFail}
    ensures InProgress(day, verdicts, Advance(g, day.graph[k].name, s, r, ran), k + 1)
  {
    var n := day.graph[k].name;
    DecidedExtend(day, verdicts, g.status, k);
    RecordsExtend(day, verdicts, g.status, g.records, g.stages, k, s, r);
    ExecutedStable(day, g.status, n, s, k);
    assert g.status[n := s][n] == s;
  }

  lemma AdvanceKeepsFailures(day: Day, g: Progress, k: nat, s: StageStatus, r: StageRecord, ran: bool)
    requires Topological(day.graph) && k < |day.graph|
    ensures var after := Advance(g, day.graph[k].name, s, r, ran).status;
            && (FailedAt(day, after, k) <==> s == StageFail)
            && forall i :: 0 <= i < k ==> FailedAt(day, after, i) == FailedAt(day, g.status, i)
  {
    forall i | 0 <= i < k ensures day.graph[i].name != day.graph[k].name {
    }
  }

  method RunNext(day: Day, verdicts: map<string, Verdict>, g0: Progress, k: nat) returns (g: Progress, failed: bool)
    requires Topological(day.graph) && k < |day.graph| && InProgress(day, verdicts, g0, k)
    ensures InProgress(day, verdicts, g, k + 1) == true
    ensures failed <==> FailedAt(day, g.status, k)
    ensures NoFailureBefore(day, g0.status, k) ==> NoFailureBefore(day, g.status, k)
    ensures NoFailureBefore(day, g0.status, k) && !failed ==> NoFailureBefore(day, g.status, k + 1)
  {
    var spec := day.graph[k];
    var s, r, ran := DecideStage(day, spec, verdicts[spec.name], g0.status);
    AdvanceKeeps(day, verdicts, g0, k, s, r, ran);
    AdvanceKeepsFailures(day, g0, k, s, r, ran);
    g := Advance(g0, spec.name, s, r, ran);
    failed := s == StageFail;
  }

  lemma NothingDecidedYet(day: Day, verdicts: map<string, Verdict>)
    requires VerdictsFor(day, verdicts, |day.graph|)
    ensures InProgress(day, verdicts, Progress(map[], map[], [], []), 0)
  {
  }

  lemma LoopStops(day: Day, status: map<string, StageStatus>, k: nat)
    requires k <= |day.graph| && (day.continueOnFailure || NoFailureBefore(day, status, k))
    ensures k == |day.graph| ==> StopsAt(day, status, k)
    ensures k < |day.graph| && !day.continueOnFailure && FailedAt(day, status, k) ==> StopsAt(day, status, k + 1)
  {
  }

  method StageLoop(day: Day, verdicts: map<string, Verdict>) returns (g: Progress, k: nat)
    requires Topological(day.graph) && VerdictsFor(day, verdicts, |day.graph|)
    ensures InProgress(day, verdicts, g, k) == true
    ensures k <= |day.graph| && StopsAt(day, g.status, k) == true
  {
    g, k := Progress(map[], map[], [], []), 0;
    NothingDecidedYet(day, verdicts);
    while k < |day.graph|
      invariant k <= |day.graph|
      // written as equations so that the solver carries each as one fact
      invariant InProgress(day, verdicts, g, k) == true
      invariant day.continueOnFailure || NoFailureBefore(day, g.status, k) == true
    {
      var failed;
      g, failed := RunNext(day, verdicts, g, k);
      if failed && !day.continueOnFailure {
        LoopStops(day, g.status, k);
        return g, k + 1;
      }
      assert InProgress(day, verdicts, g, k + 1);
      k := k + 1;
    }
    LoopStops(day, g.status, k);
  }

  method ProcessDay(day: Day) returns (o: Outcome, ghost k: nat)
    requires Topological(day.graph)
    ensures k <= |day.graph| && Ended(day, o, k)
    ensures RecordsFit(day, o.verdicts, o.status, o.records, o.stages, k)
    ensures o.executed == ExecutedNames(day, o.status, k)
    ensures FinalFits(day, o)
  {
    var verdicts := FoldTrust(day);
    var g, reached := StageLoop(day, verdicts);
    k := reached;
    var final, stale := DayComplete, false;
    if !day.dryRun {
      final := ClassifyDay(day.graph, g.status);
      stale := ZombieArtifactRisk(day.graph, g.records);
    }
    o := Outcome(verdicts, g.status, g.records, g.stages, g.executed, final, stale);
  }

  /** Day status and stale-artifact warning, as read off the statuses and records. */
  ghost predicate FinalFits(day: Day, o: Outcome) {
    if day.dryRun then o.final == DayComplete && !o.staleWarning
    else
      && (o.final == DayComplete <==> forall spec :: spec in day.graph ==> !Unsatisfied(StatusOf(spec, o.status)))
      && (o.final == DayFailed <==> SomeUnsatisfied(day.graph, o.status, true))
      && (o.staleWarning <==> exists bad, other :: StaleBelow(day.graph, o.records, bad, other))
  }

  // ----- properties of every day

  ghost predicate Satisfied(s: StageStatus) { s == StageOk || s == SkippedTrusted }

  /** Stage a lies upstream of stage i along some dependency path. */
  ghost predicate Ancestor(graph: seq<StageSpec>, a: nat, i: nat)
    requires a < |graph| && i < |graph|
  {
    Reaches(graph[i].dependsOn, graph[a].name, NameMap(graph))
  }

  lemma {:induction false} NameMapUnique(graph: seq<StageSpec>, i: nat)
    requires i < |graph| && forall a, b :: 0 <= a < b < |graph| ==> graph[a].name != graph[b].name
    ensures graph[i].name in NameMap(graph) && NameMap(graph)[graph[i].name] == graph[i]
  {
    var last := |graph| - 1;
    if i < last {
      assert graph[i].name != graph[last].name;
      NameMapUnique(graph[..last], i);
    }
  }

  lemma SameNameSameIndex(graph: seq<StageSpec>, i: nat, j: nat)
    requires Topological(graph) && i < |graph| && j < |graph| && graph[i].name == graph[j].name
    ensures i == j
  {
  }

  lemma NamedIndex(graph: seq<StageSpec>, i: nat, name: string) returns (m: nat)
    requires Topological(graph) && i < |graph| && name in graph[i].dependsOn && name in NameMap(graph)
    ensures m < i && graph[m].name == name && NameMap(graph)[name] == graph[m]
  {
    assert NameMap(graph)[name] in graph;
    assert NamedBefore(graph, i, name);
    m :| 0 <= m < i && graph[m].name == name;
    NameMapUnique(graph, m);
  }

  lemma TailPath(deps: seq<string>, p: seq<string>, target: string, specs: map<string, StageSpec>)
    requires PathFrom(deps, p, target, specs) && |p| > 1
    ensures p[0] in specs && PathFrom(specs[p[0]].dependsOn, p[1..], target, specs)
  {
    assert p[0] in specs && p[0 + 1] in specs[p[0]].dependsOn;
    var q := p[1..];
    forall i | 0 <= i < |q| - 1 ensures q[i] in specs && q[i + 1] in specs[q[i]].dependsOn {
      assert q[i] == p[i + 1];
    }
  }

  lemma DirectDependencySettled(day: Day, o: Outcome, k: nat, i: nat, m: nat)
    requires Topological(day.graph) && k <= |day.graph| && Ended(day, o, k)
    requires m < i < k && day.graph[m].name in day.graph[i].dependsOn
    requires o.status[day.graph[i].name] != SkippedUpstreamFailed
    ensures Satisfied(o.status[day.graph[m].name])
  {
    var dep := day.graph[m].name;
    assert !DependencyFailed(dep, o.status);
  }

  lemma {:induction false} UnblockedPath(day: Day, o: Outcome, k: nat, i: nat, a: nat, p: seq<string>)
    requires Topological(day.graph) && k <= |day.graph| && Ended(day, o, k) && i < k && a < |day.graph|
    requires o.status[day.graph[i].name] != SkippedUpstreamFailed
    requires PathFrom(day.graph[i].dependsOn, p, day.graph[a].name, NameMap(day.graph))
    ensures a < i && Satisfied(o.status[day.graph[a].name])
    decreases |p|
  {
    NameMapUnique(day.graph, a);
    if |p| > 1 { TailPath(day.graph[i].dependsOn, p, day.graph[a].name, NameMap(day.graph)); }
    var m := NamedIndex(day.graph, i, p[0]);
    DirectDependencySettled(day, o, k, i, m);
    if |p| > 1 {
      UnblockedPath(day, o, k, m, a, p[1..]);
    } else {
      SameNameSameIndex(day.graph, m, a);
    }
  }

  /** A stage that was not blocked has every ancestor satisfied, and all of them ran before it. */
  lemma UnblockedMeansAncestorsSatisfied(day: Day, o: Outcome, k: nat, i: nat, a: nat)
    requires Topological(day.graph) && k <= |day.graph| && Ended(day, o, k) && i < k && a < |day.graph|
    requires o.status[day.graph[i].name] != SkippedUpstreamFailed && Ancestor(day.graph, a, i)
    ensures a < i && Satisfied(o.status[day.graph[a].name])
  {
    var p :| PathFrom(day.graph[i].dependsOn, p, day.graph[a].name, NameMap(day.graph));
    UnblockedPath(day, o, k, i, a, p);
  }

  lemma ReachedIndex(day: Day, o: Outcome, k: nat, i: nat)
    requires Topological(day.graph) && k <= |day.graph| && Ended(day, o, k) && i < |day.graph|
    ensures day.graph[i].name in o.status <==> i < k
  {
    if day.graph[i].name in o.status {
      assert NamedBefore(day.graph, k, day.graph[i].name);
      var j :| 0 <= j < k && day.graph[j].name == day.graph[i].name;
      SameNameSameIndex(day.graph, i, j);
    }
  }

  lemma {:induction false} ExecutedMeans(day: Day, status: map<string, StageStatus>, k: nat, n: string)
    requires k <= |day.graph|
    ensures n in ExecutedNames(day, status, k) <==>
            !day.dryRun && (exists i :: 0 <= i < k && day.graph[i].name == n) && n in status && status[n] in {StageOk, StageFail}
  {
    if k > 0 { ExecutedMeans(day, status, k - 1, n); }
  }

  /** Nothing executes below a stage that is not satisfied: a call to the runner has clean ancestry. */
  lemma ExecutionNeedsSatisfiedAncestors(day: Day, o: Outcome, k: nat, i: nat, a: nat)
    requires Topological(day.graph) && k <= |day.graph| && Ended(day, o, k)
    requires i < |day.graph| && a < |day.graph| && Ancestor(day.graph, a, i)
    requires day.graph[i].name in ExecutedNames(day, o.status, k)
    ensures i < k && a < i && Satisfied(o.status[day.graph[a].name])
  {
    var n := day.graph[i].name;
    ExecutedMeans(day, o.status, k, n);
    var j :| 0 <= j < k && day.graph[j].name == n && o.status[n] in {StageOk, StageFail};
    assert j == i;
    UnblockedMeansAncestorsSatisfied(day, o, k, i, a);
  }

  /** An unsatisfied stage leaves every descendant skipped as blocked, or never reached. */
  lemma FailurePropagates(day: Day, o: Outcome, k: nat, bad: nat, i: nat)
    requires Topological(day.graph) && k <= |day.graph| && Ended(day, o, k)
    requires bad < |day.graph| && i < |day.graph| && Ancestor(day.graph, bad, i)
    requires day.graph[bad].name !in o.status || Unsatisfied(o.status[day.graph[bad].name])
    ensures if i < k then o.status[day.graph[i].name] == SkippedUpstreamFailed else day.graph[i].name !in o.status
  {
    ReachedIndex(day, o, k, i);
    ReachedIndex(day, o, k, bad);
    if i < k && o.status[day.graph[i].name] != SkippedUpstreamFailed {
      UnblockedMeansAncestorsSatisfied(day, o, k, i, bad);
    }
  }

  /** Conversely a stage is only ever blocked by an unsatisfied stage among its own dependencies. */
  lemma BlockedHasACause(day: Day, o: Outcome, k: nat, i: nat)
    requires Topological(day.graph) && k <= |day.graph| && Ended(day, o, k) && i < k
    requires o.status[day.graph[i].name] == SkippedUpstreamFailed
    ensures exists a :: 0 <= a < i && day.graph[a].name in day.graph[i].dependsOn && Unsatisfied(o.status[day.graph[a].name])
  {
    var dep :| dep in day.graph[i].dependsOn && DependencyFailed(dep, o.status);
    assert NamedBefore(day.graph, i, dep);
  }

  // ----- trust lineage

  lemma DependencyIntact(day: Day, verdicts: map<string, Verdict>, i: nat, m: nat)
    requires Topological(day.graph) && VerdictsFor(day, verdicts, |day.graph|) && m < i < |day.graph|
    requires day.graph[m].name in day.graph[i].dependsOn && verdicts[day.graph[i].name].intact
    ensures verdicts[day.graph[m].name].intact
  {
    assert DependencyTrusted(day.graph[m].name, verdicts);
  }

  lemma {:induction false} IntactPath(day: Day, verdicts: map<string, Verdict>, i: nat, a: nat, p: seq<string>)
    requires Topological(day.graph) && VerdictsFor(day, verdicts, |day.graph|) && i < |day.graph| && a < |day.graph|
    requires verdicts[day.graph[i].name].intact
    requires PathFrom(day.graph[i].dependsOn, p, day.graph[a].name, NameMap(day.graph))
    ensures verdicts[day.graph[a].name].intact
    decreases |p|
  {
    NameMapUnique(day.graph, a);
    if |p| > 1 { TailPath(day.graph[i].dependsOn, p, day.graph[a].name, NameMap(day.graph)); }
    var m := NamedIndex(day.graph, i, p[0]);
    DependencyIntact(day, verdicts, i, m);
    if |p| > 1 {
      IntactPath(day, verdicts, m, a, p[1..]);
    } else {
      SameNameSameIndex(day.graph, m, a);
    }
  }

  lemma DependencyIsAncestor(graph: seq<StageSpec>, m: nat, i: nat)
    requires m < |graph| && i < |graph| && graph[m].name in graph[i].dependsOn
    ensures Ancestor(graph, m, i)
  {
    assert PathFrom(graph[i].dependsOn, [graph[m].name], graph[m].name, NameMap(graph));
  }

  lemma AncestorOfDependency(graph: seq<StageSpec>, a: nat, m: nat, i: nat)
    requires Topological(graph) && a < |graph| && m < |graph| && i < |graph|
    requires graph[m].name in graph[i].dependsOn && Ancestor(graph, a, m)
    ensures Ancestor(graph, a, i)
  {
    var specs := NameMap(graph);
    NameMapUnique(graph, m);
    var p :| PathFrom(graph[m].dependsOn, p, graph[a].name, specs);
    PrependPath(graph[i].dependsOn, graph[m].name, p, graph[a].name, specs);
  }

  lemma PrependPath(deps: seq<string>, first: string, p: seq<string>, target: string, specs: map<string, StageSpec>)
    requires first in deps && first in specs && PathFrom(specs[first].dependsOn, p, target, specs)
    ensures Reaches(deps, target, specs)
  {
    var q := [first] + p;
    forall j | 0 <= j < |q| - 1 ensures q[j] in specs && q[j + 1] in specs[q[j]].dependsOn {
      if j > 0 {
        var i := j - 1;
        assert p[i] in specs && p[i + 1] in specs[p[i]].dependsOn;
        assert q[j] == p[i] && q[j + 1] == p[i + 1];
      }
    }
    assert PathFrom(deps, q, target, specs);
  }

  lemma ReachesThrough(graph: seq<StageSpec>, m: nat, i: nat, target: string)
    requires Topological(graph) && m < |graph| && i < |graph| && graph[m].name in graph[i].dependsOn
    requires target in graph[m].dependsOn || Reaches(graph[m].dependsOn, target, NameMap(graph))
    ensures Reaches(graph[i].dependsOn, target, NameMap(graph))
  {
    NameMapUnique(graph, m);
    if target in graph[m].dependsOn { assert PathFrom(graph[m].dependsOn, [target], target, NameMap(graph)); }
    var p :| PathFrom(graph[m].dependsOn, p, target, NameMap(graph));
    PrependPath(graph[i].dependsOn, graph[m].name, p, target, NameMap(graph));
  }

  lemma DefaultParent(i: nat) returns (m: nat)
    requires 0 < i < |DEFAULT_STAGE_GRAPH|
    ensures m < i && DEFAULT_STAGE_GRAPH[m].name in DEFAULT_STAGE_GRAPH[i].dependsOn
    ensures m == 0 ==> SYNTHETIC_CME_DOWNLOAD in DEFAULT_STAGE_GRAPH[0].dependsOn
  {
    m := if i == 6 then 4 else i - 1;
  }

  /** In the built-in graph every later stage stands, directly or not, on the download of the trades. */
  lemma {:induction false} DefaultGraphStandsOnDownload(i: nat)
    requires 0 < i < |DEFAULT_STAGE_GRAPH|
    ensures Reaches(DEFAULT_STAGE_GRAPH[i].dependsOn, SYNTHETIC_CME_DOWNLOAD, NameMap(DEFAULT_STAGE_GRAPH))
    decreases i
  {
    DefaultGraphIsTopological();
    var m := DefaultParent(i);
    if m > 0 { DefaultGraphStandsOnDownload(m); }
    ReachesThrough(DEFAULT_STAGE_GRAPH, m, i, SYNTHETIC_CME_DOWNLOAD);
  }

  /** Lineage is intact exactly when the raw data is trusted and the artifacts of the stage and of all its ancestors exist. */
  lemma {:induction false} LineageIsExact(day: Day, verdicts: map<string, Verdict>, i: nat)
    requires Topological(day.graph) && VerdictsFor(day, verdicts, |day.graph|) && i < |day.graph|
    ensures verdicts[day.graph[i].name].intact <==>
              && day.raw in {Trusted, TrustedExploratory, TrustedLegacyNoSidecar} && day.present(day.graph[i].name)
              && forall a :: 0 <= a < |day.graph| && Ancestor(day.graph, a, i) ==> day.present(day.graph[a].name)
    decreases i
  {
    var spec := day.graph[i];
    if verdicts[spec.name].intact {
      forall a | 0 <= a < |day.graph| && Ancestor(day.graph, a, i) ensures day.present(day.graph[a].name) {
        var p :| PathFrom(spec.dependsOn, p, day.graph[a].name, NameMap(day.graph));
        IntactPath(day, verdicts, i, a, p);
      }
    } else if IsTrusted(day.raw) && day.present(spec.name) {
      var dep :| dep in spec.dependsOn && !DependencyTrusted(dep, verdicts);
      assert NamedBefore(day.graph, i, dep);
      var m :| 0 <= m < i && day.graph[m].name == dep;
      DependencyIsAncestor(day.graph, m, i);
      LineageIsExact(day, verdicts, m);
      if day.present(dep) {
        var a :| 0 <= a < |day.graph| && Ancestor(day.graph, a, m) && !day.present(day.graph[a].name);
        AncestorOfDependency(day.graph, a, m, i);
      }
    }
  }

  /** The trust recorded for a stage: absent without an artifact, the raw data's own along an intact lineage, else untrusted. */
  lemma VerdictMeans(day: Day, verdicts: map<string, Verdict>, i: nat)
    requires Topological(day.graph) && VerdictsFor(day, verdicts, |day.graph|) && i < |day.graph|
    ensures var v := verdicts[day.graph[i].name];
            && v.present == day.present(day.graph[i].name)
            && v.trust == (if !v.present then Absent else if LineageIntact(day, i) then day.raw else ExistsButUntrusted)
  {
    LineageIsExact(day, verdicts, i);
  }

  // ----- what every reached stage became, from the disk, the runners and the options

  /** Trusted raw data, and the artifacts of the stage and of all its ancestors on disk. */
  ghost predicate LineageIntact(day: Day, i: nat)
    requires i < |day.graph|
  {
    && (day.raw == Trusted || day.raw == TrustedExploratory || day.raw == TrustedLegacyNoSidecar)
    && day.present(day.graph[i].name)
    && forall a :: 0 <= a < |day.graph| && Ancestor(day.graph, a, i) ==> day.present(day.graph[a].name)
  }

  /** Some direct dependency was reached and is neither fresh nor reused as trusted. */
  ghost predicate Blocked(day: Day, o: Outcome, i: nat)
    requires i < |day.graph|
  {
    exists a :: 0 <= a < i && DependencyNotSatisfied(day, o, a, i)
  }

  ghost predicate DependencyNotSatisfied(day: Day, o: Outcome, a: nat, i: nat)
    requires a < |day.graph| && i < |day.graph|
  {
    day.graph[a].name in day.graph[i].dependsOn && day.graph[a].name in o.status && !Satisfied(o.status[day.graph[a].name])
  }

  lemma StatusIsDecided(day: Day, o: Outcome, k: nat, i: nat)
    requires Topological(day.graph) && k <= |day.graph| && Ended(day, o, k) && i < k
    ensures var n := day.graph[i].name;
            n in o.status && (Unsatisfied(o.status[n]) <==> !Satisfied(o.status[n]))
  {
  }

  lemma BlockedMeansFailedDependency(day: Day, o: Outcome, k: nat, i: nat)
    requires Topological(day.graph) && k <= |day.graph| && Ended(day, o, k) && i < k
    ensures Blocked(day, o, i) <==> SomeUpstreamFailed(day.graph[i], o.status)
  {
    if a: nat :| a < i && DependencyNotSatisfied(day, o, a, i) {
      StatusIsDecided(day, o, k, a);
      assert DependencyFailed(day.graph[a].name, o.status);
    }
    if dep :| dep in day.graph[i].dependsOn && DependencyFailed(dep, o.status) {
      assert NamedBefore(day.graph, i, dep);
      var a :| 0 <= a < i && day.graph[a].name == dep;
      StatusIsDecided(day, o, k, a);
      assert DependencyNotSatisfied(day, o, a, i);
    }
  }

  /**
   * The status of every reached stage: blocked by a dependency that is not satisfied, planned in a dry
   * run, otherwise reused or refused by lineage when its artifact exists and no rebuild is asked for, and
   * otherwise what its runner answered.
   */
  lemma StatusIsExact(day: Day, o: Outcome, k: nat, i: nat)
    requires Topological(day.graph) && k <= |day.graph| && Ended(day, o, k) && i < k
    ensures var n := day.graph[i].name;
            n in o.status && o.status[n] ==
              if Blocked(day, o, i) then SkippedUpstreamFailed
              else if day.dryRun then StageOk
              else if day.present(n) && !day.rebuildExisting then (if LineageIntact(day, i) then SkippedTrusted else SkippedUntrusted)
              else if day.runs(n) then StageOk
              else StageFail
  {
    BlockedMeansFailedDependency(day, o, k, i);
    LineageIsExact(day, o.verdicts, i);
  }

  /** A stage that was executed is OK exactly when its runner succeeded, and failed otherwise. */
  lemma ExecutedStatusIsAnswer(day: Day, o: Outcome, k: nat, n: string)
    requires Topological(day.graph) && k <= |day.graph| && Ended(day, o, k)
    requires n in ExecutedNames(day, o.status, k)
    ensures n in o.status && (o.status[n] == StageOk <==> day.runs(n)) && (o.status[n] == StageFail <==> !day.runs(n))
  {
    ExecutedMeans(day, o.status, k, n);
    var i :| 0 <= i < k && day.graph[i].name == n;
    StatusIsExact(day, o, k, i);
  }

  ghost predicate EmptyDisk(day: Day) { forall i :: 0 <= i < |day.graph| ==> !day.present(day.graph[i].name) }

  ghost predicate AllRun(day: Day) { forall i :: 0 <= i < |day.graph| ==> day.runs(day.graph[i].name) }

  lemma {:induction false} FreshStageIsOk(day: Day, o: Outcome, k: nat, i: nat)
    requires !day.dryRun && EmptyDisk(day) && AllRun(day)
    requires Topological(day.graph) && k <= |day.graph| && Ended(day, o, k) && i < k
    ensures day.graph[i].name in o.status && o.status[day.graph[i].name] == StageOk
    decreases i
  {
    forall a | 0 <= a < i ensures !DependencyNotSatisfied(day, o, a, i) { FreshStageIsOk(day, o, k, a); }
    StatusIsExact(day, o, k, i);
  }

  ghost function NamesTo(graph: seq<StageSpec>, k: nat): seq<string>
    requires k <= |graph|
  {
    seq(k, i requires 0 <= i < k => graph[i].name)
  }

  lemma {:induction false} AllOkExecutesAll(day: Day, status: map<string, StageStatus>, k: nat)
    requires !day.dryRun && k <= |day.graph|
    requires forall i :: 0 <= i < k ==> day.graph[i].name in status && status[day.graph[i].name] == StageOk
    ensures ExecutedNames(day, status, k) == NamesTo(day.graph, k)
  {
    if k > 0 {
      AllOkExecutesAll(day, status, k - 1);
      assert NamesTo(day.graph, k) == NamesTo(day.graph, k - 1) + [day.graph[k - 1].name];
    }
  }

  /** With nothing on disk a day is complete exactly when every runner succeeds, and then all stages execute in graph order. */
  lemma EmptyDiskDay(day: Day, o: Outcome, k: nat)
    requires !day.dryRun && EmptyDisk(day)
    requires Topological(day.graph) && k <= |day.graph| && Ended(day, o, k) && FinalFits(day, o)
    ensures o.final == DayComplete <==> AllRun(day)
    ensures AllRun(day) ==> k == |day.graph| && ExecutedNames(day, o.status, k) == NamesTo(day.graph, |day.graph|)
  {
    CompleteIffAllSatisfied(day, o, k);
    if AllRun(day) {
      forall i | 0 <= i < k ensures day.graph[i].name in o.status && o.status[day.graph[i].name] == StageOk {
        FreshStageIsOk(day, o, k, i);
      }
      AllOkExecutesAll(day, o.status, k);
    }
    if o.final == DayComplete {
      forall i | 0 <= i < |day.graph| ensures day.runs(day.graph[i].name) { StatusIsExact(day, o, k, i); }
    }
  }

  /** A day counts as failed exactly when some required stage ended, or was left, without being fresh or reused. */
  lemma FailedExactly(day: Day, o: Outcome, k: nat)
    requires Topological(day.graph) && k <= |day.graph| && Ended(day, o, k) && FinalFits(day, o) && !day.dryRun
    ensures o.final == DayFailed <==>
              exists i :: 0 <= i < |day.graph| && RequiredNotSatisfied(day, o, i)
  {
    if o.final == DayFailed {
      var spec :| spec in day.graph && spec.required == true && Unsatisfied(StatusOf(spec, o.status));
      var i: nat := StageIndex(day.graph, spec);
      ReachedIndex(day, o, k, i);
      if i < k { StatusIsDecided(day, o, k, i); }
      assert RequiredNotSatisfied(day, o, i);
    }
    if i: nat :| i < |day.graph| && RequiredNotSatisfied(day, o, i) {
      ReachedIndex(day, o, k, i);
      if i < k { StatusIsDecided(day, o, k, i); }
      assert day.graph[i] in day.graph && Unsatisfied(StatusOf(day.graph[i], o.status));
    }
  }

  ghost predicate RequiredNotSatisfied(day: Day, o: Outcome, i: nat)
    requires i < |day.graph|
  {
    var n := day.graph[i].name;
    day.graph[i].required && !(n in o.status && Satisfied(o.status[n]))
  }

  /** Executing over an existing artifact passes the force flag whenever the stage knows it. */
  lemma OverwritePassesForce(day: Day, o: Outcome, k: nat, i: nat)
    requires Topological(day.graph) && k <= |day.graph| && Ended(day, o, k) && i < k
    requires RecordsFit(day, o.verdicts, o.status, o.records, o.stages, k)
    requires day.graph[i].name in ExecutedNames(day, o.status, k) && day.present(day.graph[i].name)
    ensures o.stages[i].forcePassed <==> day.graph[i].supportsForce
  {
    var n := day.graph[i].name;
    ExecutedMeans(day, o.status, k, n);
    NoSilentOverwrite(day, o, k, n);
    assert RecordAt(day, day.graph[i], o.verdicts, o.status, o.records, o.stages[i]);
  }

  /**
   * Without a rebuild, a reused artifact stands on reused artifacts only: no ancestor executed in
   * this run.
   */
  lemma ReusedMeansNothingUpstreamRan(day: Day, o: Outcome, k: nat, i: nat, a: nat)
    requires Topological(day.graph) && k <= |day.graph| && Ended(day, o, k)
    requires i < k && a < |day.graph| && Ancestor(day.graph, a, i)
    requires o.status[day.graph[i].name] == SkippedTrusted
    ensures a < i && o.status[day.graph[a].name] == SkippedTrusted
    ensures day.graph[a].name !in ExecutedNames(day, o.status, k)
  {
    UnblockedMeansAncestorsSatisfied(day, o, k, i, a);
    LineageIsExact(day, o.verdicts, i);
    var p :| PathFrom(day.graph[i].dependsOn, p, day.graph[a].name, NameMap(day.graph));
    IntactPath(day, o.verdicts, i, a, p);
    LineageIsExact(day, o.verdicts, a);
    ExecutedMeans(day, o.status, k, day.graph[a].name);
  }

  /** An artifact found on disk is only ever regenerated when the caller asked for a rebuild. */
  lemma NoSilentOverwrite(day: Day, o: Outcome, k: nat, n: string)
    requires Topological(day.graph) && k <= |day.graph| && Ended(day, o, k)
    requires n in ExecutedNames(day, o.status, k) && day.present(n)
    ensures day.rebuildExisting
  {
    ExecutedMeans(day, o.status, k, n);
  }

  /** The day is complete iff the loop reached every stage and each one is fresh or reused as trusted. */
  lemma CompleteIffAllSatisfied(day: Day, o: Outcome, k: nat)
    requires Topological(day.graph) && k <= |day.graph| && Ended(day, o, k) && FinalFits(day, o) && !day.dryRun
    ensures o.final == DayComplete <==>
              k == |day.graph| && forall i :: 0 <= i < k ==> Satisfied(o.status[day.graph[i].name])
  {
    if o.final == DayComplete {
      forall i | 0 <= i < |day.graph| ensures i < k && Satisfied(o.status[day.graph[i].name]) {
        assert day.graph[i] in day.graph;
        assert !Unsatisfied(StatusOf(day.graph[i], o.status));
        ReachedIndex(day, o, k, i);
      }
    }
    if k == |day.graph| && forall i :: 0 <= i < k ==> Satisfied(o.status[day.graph[i].name]) {
      forall spec | spec in day.graph ensures !Unsatisfied(StatusOf(spec, o.status)) {
        var i :| 0 <= i < k && day.graph[i] == spec;
      }
    }
  }

  lemma {:induction false} PathGoesBack(graph: seq<StageSpec>, i: nat, a: nat, p: seq<string>)
    requires Topological(graph) && i < |graph| && a < |graph|
    requires PathFrom(graph[i].dependsOn, p, graph[a].name, NameMap(graph))
    ensures a < i
    decreases |p|
  {
    NameMapUnique(graph, a);
    if |p| > 1 { TailPath(graph[i].dependsOn, p, graph[a].name, NameMap(graph)); }
    var m := NamedIndex(graph, i, p[0]);
    if |p| > 1 {
      PathGoesBack(graph, m, a, p[1..]);
    } else {
      SameNameSameIndex(graph, m, a);
    }
  }

  lemma AncestorIsEarlier(graph: seq<StageSpec>, a: nat, i: nat)
    requires Topological(graph) && a < |graph| && i < |graph| && Ancestor(graph, a, i)
    ensures a < i
  {
    var p :| PathFrom(graph[i].dependsOn, p, graph[a].name, NameMap(graph));
    PathGoesBack(graph, i, a, p);
  }

  /** An artifact on disk below a stage that was reached and is not satisfied. */
  ghost predicate StaleOnDisk(day: Day, o: Outcome, a: nat, b: nat)
    requires a < |day.graph| && b < |day.graph|
  {
    && Ancestor(day.graph, a, b) && day.present(day.graph[b].name)
    && day.graph[a].name in o.status && Unsatisfied(o.status[day.graph[a].name])
  }

  lemma RecordOf(day: Day, o: Outcome, k: nat, i: nat)
    requires !day.dryRun && Topological(day.graph) && k <= |day.graph| && Ended(day, o, k)
    requires RecordsFit(day, o.verdicts, o.status, o.records, o.stages, k) && i < |day.graph|
    ensures var n := day.graph[i].name;
            && (n in o.records <==> i < k) && (n in o.status <==> i < k)
            && (i < k ==> o.records[n].status == o.status[n] && o.records[n].present == day.present(n))
  {
    ReachedIndex(day, o, k, i);
    if i < k { assert RecordAt(day, day.graph[i], o.verdicts, o.status, o.records, o.stages[i]); }
  }

  lemma StalePair(day: Day, o: Outcome, k: nat, a: nat, b: nat)
    requires !day.dryRun && Topological(day.graph) && k <= |day.graph| && Ended(day, o, k)
    requires RecordsFit(day, o.verdicts, o.status, o.records, o.stages, k) && a < |day.graph| && b < |day.graph|
    ensures StaleBelow(day.graph, o.records, day.graph[a], day.graph[b]) <==> b < k && StaleOnDisk(day, o, a, b)
  {
    RecordOf(day, o, k, a);
    RecordOf(day, o, k, b);
    if Ancestor(day.graph, a, b) { AncestorIsEarlier(day.graph, a, b); }
  }

  lemma StageIndex(graph: seq<StageSpec>, spec: StageSpec) returns (i: nat)
    requires spec in graph
    ensures i < |graph| && graph[i] == spec
  {
    i :| i < |graph| && graph[i] == spec;
  }

  /** The warning is raised exactly when some reached stage has an artifact on disk below an unsatisfied one. */
  lemma WarningIsExact(day: Day, o: Outcome, k: nat)
    requires !day.dryRun && Topological(day.graph) && k <= |day.graph| && Ended(day, o, k) && FinalFits(day, o)
    requires RecordsFit(day, o.verdicts, o.status, o.records, o.stages, k)
    ensures o.staleWarning <==> exists a, b :: 0 <= a < |day.graph| && 0 <= b < k && StaleOnDisk(day, o, a, b)
  {
    if bad, other :| StaleBelow(day.graph, o.records, bad, other) {
      var a := StageIndex(day.graph, bad);
      var b := StageIndex(day.graph, other);
      StalePair(day, o, k, a, b);
    }
    if a: nat, b: nat :| a < |day.graph| && b < k && StaleOnDisk(day, o, a, b) {
      StalePair(day, o, k, a, b);
      assert StaleBelow(day.graph, o.records, day.graph[a], day.graph[b]);
    }
  }

  /** A day that carries on after failures warns exactly when the disk holds an artifact below an unsatisfied stage. */
  lemma WarningCoversDisk(day: Day, o: Outcome, k: nat)
    requires !day.dryRun && Topological(day.graph) && k <= |day.graph| && Ended(day, o, k) && FinalFits(day, o)
    requires RecordsFit(day, o.verdicts, o.status, o.records, o.stages, k)
    requires day.continueOnFailure
    ensures o.staleWarning <==>
              exists a, b :: 0 <= a < |day.graph| && 0 <= b < |day.graph| && StaleOnDisk(day, o, a, b)
  {
    WarningIsExact(day, o, k);
  }

  /** A day that stops on its first stage stays silent, although every artifact below that stage is stale. */
  lemma StoppedDayIsSilent(day: Day, o: Outcome, k: nat)
    requires !day.dryRun && Topological(day.graph) && k <= |day.graph| && Ended(day, o, k) && FinalFits(day, o)
    requires RecordsFit(day, o.verdicts, o.status, o.records, o.stages, k)
    requires !day.continueOnFailure && day.graph != [] && FailedAt(day, o.status, 0)
    ensures k == 1 && !o.staleWarning
    ensures forall b :: 0 <= b < |day.graph| && Ancestor(day.graph, 0, b) && day.present(day.graph[b].name) ==> StaleOnDisk(day, o, 0, b)
  {
    WarningIsExact(day, o, k);
    if a: nat, b: nat :| a < |day.graph| && b < k && StaleOnDisk(day, o, a, b) {
      AncestorIsEarlier(day.graph, a, b);
      assert false;
    }
  }

  /** A stale-artifact warning and a complete day exclude each other. */
  lemma StaleNeverComplete(day: Day, o: Outcome, k: nat)
    requires Topological(day.graph) && k <= |day.graph| && Ended(day, o, k) && FinalFits(day, o)
    requires RecordsFit(day, o.verdicts, o.status, o.records, o.stages, k)
    ensures o.staleWarning ==> o.final != DayComplete
  {
    if o.staleWarning {
      WarningIsExact(day, o, k);
      var a, b :| 0 <= a < |day.graph| && 0 <= b < k && StaleOnDisk(day, o, a, b);
      assert Unsatisfied(StatusOf(day.graph[a], o.status));
    }
  }

  /** In a dry run no stage ever blocks another. */
  lemma {:induction false} DryRunSatisfies(day: Day, o: Outcome, k: nat, i: nat)
    requires day.dryRun && Topological(day.graph) && k <= |day.graph| && Ended(day, o, k) && i < k
    ensures day.graph[i].name in o.status && o.status[day.graph[i].name] == StageOk
    decreases i
  {
    forall dep | dep in day.graph[i].dependsOn ensures !DependencyFailed(dep, o.status) {
      if dep != SYNTHETIC_CME_DOWNLOAD {
        assert NamedBefore(day.graph, i, dep);
        var m :| 0 <= m < i && day.graph[m].name == dep;
        DryRunSatisfies(day, o, k, m);
      }
    }
  }

  lemma {:induction false} NothingExecutes(day: Day, status: map<string, StageStatus>, k: nat)
    requires day.dryRun && k <= |day.graph|
    ensures ExecutedNames(day, status, k) == []
  {
    if k > 0 { NothingExecutes(day, status, k - 1); }
  }

  /**
   * A dry run plans the whole day: whatever is on disk and whatever the runner would answer, it reaches
   * every stage, blocks and reuses none, records each as DRY_RUN, calls the runner for nothing and
   * reports the day complete.
   */
  lemma DryRunPlansEveryStage(day: Day, o: Outcome, k: nat)
    requires day.dryRun && Topological(day.graph) && k <= |day.graph| && Ended(day, o, k) && FinalFits(day, o)
    requires RecordsFit(day, o.verdicts, o.status, o.records, o.stages, k)
    requires o.executed == ExecutedNames(day, o.status, k)
    ensures k == |day.graph| == |o.stages| && o.executed == [] && o.final == DayComplete && !o.staleWarning
    ensures forall i :: 0 <= i < k ==>
              o.stages[i].status == DryRun && o.stages[i].blockedBy.None? && !o.stages[i].oldArtifactUsed
  {
    NothingExecutes(day, o.status, k);
    forall i | 0 <= i < k ensures o.stages[i].status == DryRun && o.stages[i].blockedBy.None? && !o.stages[i].oldArtifactUsed {
      DryRunSatisfies(day, o, k, i);
      assert RecordAt(day, day.graph[i], o.verdicts, o.status, o.records, o.stages[i]);
    }
  }
}
