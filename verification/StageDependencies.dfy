/** Trust lineage, upstream search and day classification over a stage graph. */
module StageDependencies {
  import opened Sequences

  const SYNTHETIC_CME_DOWNLOAD: string := "CME_DOWNLOAD"

  datatype StageSpec = StageSpec(name: string, dependsOn: seq<string>, required: bool, supportsForce: bool)

  const DEFAULT_STAGE_GRAPH: seq<StageSpec> := [
    StageSpec("CME_INGEST", [SYNTHETIC_CME_DOWNLOAD], true, true),
    StageSpec("CME_QUALITY", ["CME_INGEST"], true, false),
    StageSpec("ALIGNMENT_QUALITY", ["CME_QUALITY"], true, true),
    StageSpec("BAR_ALIGNMENT", ["ALIGNMENT_QUALITY"], true, true),
    StageSpec("BUILD_BAR_FEATURES", ["BAR_ALIGNMENT"], true, true),
    StageSpec("BAR_FEATURE_QUALITY", ["BUILD_BAR_FEATURES"], false, false),
    StageSpec("FEATURE_EDA", ["BUILD_BAR_FEATURES", "BAR_FEATURE_QUALITY"], false, true)
  ]

  datatype StageStatus =
    | StageOk
    | StageFail
    | SkippedTrusted
    | SkippedUntrusted
    | SkippedMissingInput
    | SkippedUpstreamFailed
    | DryRun

  predicate Unsatisfied(s: StageStatus) {
    s in {StageFail, SkippedUpstreamFailed, SkippedUntrusted, SkippedMissingInput}
  }

  datatype Trust = Trusted | TrustedExploratory | TrustedLegacyNoSidecar | ExistsButUntrusted | Absent

  predicate IsTrusted(t: Trust) { t in {Trusted, TrustedExploratory, TrustedLegacyNoSidecar} }

  datatype Verdict = Verdict(present: bool, trust: Trust, intact: bool)

  // ----- trust of one stage

  ghost predicate DependencyTrusted(dep: string, upstream: map<string, Verdict>) {
    dep == SYNTHETIC_CME_DOWNLOAD || (dep in upstream && IsTrusted(upstream[dep].trust))
  }

  /** A stage's artifact is trusted when it is present, the raw data is, and every dependency is. */
  ghost function VerdictOf(spec: StageSpec, present: bool, raw: Trust, upstream: map<string, Verdict>): Verdict {
    if !present then Verdict(false, Absent, false)
    else if IsTrusted(raw) && forall dep :: dep in spec.dependsOn ==> DependencyTrusted(dep, upstream)
    then Verdict(true, raw, true)
    else Verdict(true, ExistsButUntrusted, false)
  }

  method EvaluateStageTrust(spec: StageSpec, present: bool, raw: Trust, upstream: map<string, Verdict>) returns (v: Verdict)
    ensures v == VerdictOf(spec, present, raw, upstream)
  {
    if !present { return Verdict(false, Absent, false); }
    if !IsTrusted(raw) { return Verdict(true, ExistsButUntrusted, false); }
    for i := 0 to |spec.dependsOn|
      invariant forall k :: 0 <= k < i ==> DependencyTrusted(spec.dependsOn[k], upstream)
    {
      var dep := spec.dependsOn[i];
      if dep == SYNTHETIC_CME_DOWNLOAD { continue; }
      if dep !in upstream || !IsTrusted(upstream[dep].trust) {
        assert !DependencyTrusted(dep, upstream) && dep in spec.dependsOn;
        return Verdict(true, ExistsButUntrusted, false);
      }
    }
    return Verdict(true, raw, true);
  }

  // ----- blocking

  predicate DependencyFailed(dep: string, status: map<string, StageStatus>) {
    dep != SYNTHETIC_CME_DOWNLOAD && dep in status && Unsatisfied(status[dep])
  }

  ghost predicate FirstFailedAt(spec: StageSpec, status: map<string, StageStatus>, i: nat)
    requires i < |spec.dependsOn|
  {
    && DependencyFailed(spec.dependsOn[i], status)
    && forall k :: 0 <= k < i ==> !DependencyFailed(spec.dependsOn[k], status)
  }

  method FirstUpstreamFailed(spec: StageSpec, status: map<string, StageStatus>) returns (r: Option<string>)
    ensures r.None? <==> forall dep :: dep in spec.dependsOn ==> !DependencyFailed(dep, status)
    ensures r.Some? ==> exists i :: 0 <= i < |spec.dependsOn| && spec.dependsOn[i] == r.value && FirstFailedAt(spec, status, i)
  {
    for i := 0 to |spec.dependsOn|
      invariant forall k :: 0 <= k < i ==> !DependencyFailed(spec.dependsOn[k], status)
    {
      if DependencyFailed(spec.dependsOn[i], status) {
        assert spec.dependsOn[i] in spec.dependsOn && FirstFailedAt(spec, status, i);
        return Some(spec.dependsOn[i]);
      }
    }
    return None;
  }

  // ----- day status

  datatype DayStatus = DayFailed | DayPartial | DayComplete

  function StatusOf(spec: StageSpec, status: map<string, StageStatus>): StageStatus {
    if spec.name in status then status[spec.name] else SkippedMissingInput
  }

  ghost predicate SomeUnsatisfied(graph: seq<StageSpec>, status: map<string, StageStatus>, required: bool) {
    exists spec :: spec in graph && spec.required == required && Unsatisfied(StatusOf(spec, status))
  }

  method ClassifyDay(graph: seq<StageSpec>, status: map<string, StageStatus>) returns (r: DayStatus)
    ensures r.DayFailed? <==> SomeUnsatisfied(graph, status, true)
    ensures r.DayPartial? <==> !SomeUnsatisfied(graph, status, true) && SomeUnsatisfied(graph, status, false)
    ensures r.DayComplete? <==> forall spec :: spec in graph ==> !Unsatisfied(StatusOf(spec, status))
  {
    var badRequired, badOptional := false, false;
    for i := 0 to |graph|
      invariant badRequired <==> SomeUnsatisfied(graph[..i], status, true)
      invariant badOptional <==> SomeUnsatisfied(graph[..i], status, false)
    {
      assert graph[..i + 1] == graph[..i] + [graph[i]];
      if Unsatisfied(StatusOf(graph[i], status)) {
        if graph[i].required { badRequired := true; } else { badOptional := true; }
        assert graph[i] in graph[..i + 1];
      }
      assert forall s :: s in graph[..i + 1] <==> s in graph[..i] || s == graph[i];
    }
    assert graph[..|graph|] == graph;
    return if badRequired then DayFailed else if badOptional then DayPartial else DayComplete;
  }

  // ----- upstream search

  /** Later entries win, as in a dictionary built from the graph. */
  function NameMap(graph: seq<StageSpec>): (m: map<string, StageSpec>)
    ensures forall n :: n in m ==> m[n] in graph && m[n].name == n
    ensures forall s :: s in graph ==> s.name in m
  {
    if graph == [] then map[]
    else
      var last := graph[|graph| - 1];
      var rest := NameMap(graph[..|graph| - 1]);
      assert forall s :: s in graph ==> s in graph[..|graph| - 1] || s == last;
      rest[last.name := last]
  }

  /** Each element is a declared dependency of the one before it. */
  ghost predicate Chain(p: seq<string>, specs: map<string, StageSpec>) {
    forall i :: 0 <= i < |p| - 1 ==> p[i] in specs && p[i + 1] in specs[p[i]].dependsOn
  }

  ghost predicate PathFrom(deps: seq<string>, p: seq<string>, target: string, specs: map<string, StageSpec>) {
    p != [] && p[0] in deps && p[|p| - 1] == target && Chain(p, specs)
  }

  /** A non-empty dependency path leads from a stage with these dependencies to the target. */
  ghost predicate Reaches(deps: seq<string>, target: string, specs: map<string, StageSpec>) {
    exists p :: PathFrom(deps, p, target, specs)
  }

  lemma {:induction false} ClosedSetConfinesPaths(closed: set<string>, deps: seq<string>, p: seq<string>, target: string, specs: map<string, StageSpec>)
    requires forall d :: d in deps ==> d in closed
    requires forall n, d :: n in closed && n in specs && d in specs[n].dependsOn ==> d in closed
    requires PathFrom(deps, p, target, specs)
    ensures target in closed
    decreases |p|
  {
    if |p| > 1 {
      var q := p[1..];
      assert p[0] in specs && p[1] in specs[p[0]].dependsOn;
      assert Chain(q, specs) by {
        forall i | 0 <= i < |q| - 1 ensures q[i] in specs && q[i + 1] in specs[q[i]].dependsOn {
          assert q[i] == p[i + 1];
        }
      }
      ClosedSetConfinesPaths(closed, specs[p[0]].dependsOn, q, target, specs);
    }
  }

  lemma ReachOneFurther(deps: seq<string>, via: string, next: string, specs: map<string, StageSpec>)
    requires Reaches(deps, via, specs) && via in specs && next in specs[via].dependsOn
    ensures Reaches(deps, next, specs)
  {
    var p :| PathFrom(deps, p, via, specs);
    var q := p + [next];
    assert Chain(q, specs) by {
      forall i | 0 <= i < |q| - 1 ensures q[i] in specs && q[i + 1] in specs[q[i]].dependsOn {
        if i < |p| - 1 { assert p[i] in specs && p[i + 1] in specs[p[i]].dependsOn; }
      }
    }
    assert PathFrom(deps, q, next, specs);
  }

  ghost function Elements(s: seq<string>): set<string> { set x | x in s }

  lemma ElementsPopped(s: seq<string>)
    requires s != []
    ensures Elements(s) == Elements(s[..|s| - 1]) + {s[|s| - 1]}
  {
    assert s == s[..|s| - 1] + [s[|s| - 1]];
  }

  lemma ElementsAppended(a: seq<string>, b: seq<string>)
    ensures Elements(a + b) == Elements(a) + Elements(b)
  {
  }

  /** Everything a visited stage depends on has been visited or is waiting. */
  ghost predicate Expanded(visited: set<string>, waiting: set<string>, specs: map<string, StageSpec>) {
    forall n :: n in visited && n in specs ==> Elements(specs[n].dependsOn) <= visited + waiting
  }

  ghost predicate AllReached(s: set<string>, spec: StageSpec, specs: map<string, StageSpec>) {
    forall d :: d in s ==> Reaches(spec.dependsOn, d, specs)
  }

  ghost function Universe(spec: StageSpec, specs: map<string, StageSpec>): set<string> {
    Elements(spec.dependsOn) + set n, d | n in specs && d in specs[n].dependsOn :: d
  }

  lemma DirectlyReached(spec: StageSpec, specs: map<string, StageSpec>)
    ensures AllReached(Elements(spec.dependsOn), spec, specs)
  {
    forall d | d in spec.dependsOn ensures Reaches(spec.dependsOn, d, specs) {
      assert PathFrom(spec.dependsOn, [d], d, specs);
    }
  }

  lemma ExpandOne(spec: StageSpec, next: string, specs: map<string, StageSpec>)
    requires Reaches(spec.dependsOn, next, specs) && next in specs
    ensures AllReached(Elements(specs[next].dependsOn), spec, specs)
    ensures Elements(specs[next].dependsOn) <= Universe(spec, specs)
  {
    forall d | d in specs[next].dependsOn ensures Reaches(spec.dependsOn, d, specs) {
      ReachOneFurther(spec.dependsOn, next, d, specs);
    }
  }

  lemma UnvisitedUnreached(visited: set<string>, spec: StageSpec, name: string, specs: map<string, StageSpec>)
    requires Elements(spec.dependsOn) <= visited && Expanded(visited, {}, specs) && name !in visited
    ensures !Reaches(spec.dependsOn, name, specs)
  {
    forall p ensures !PathFrom(spec.dependsOn, p, name, specs) {
      if PathFrom(spec.dependsOn, p, name, specs) {
        forall n, d | n in visited && n in specs && d in specs[n].dependsOn ensures d in visited {
          assert d in Elements(specs[n].dependsOn);
        }
        ClosedSetConfinesPaths(visited, spec.dependsOn, p, name, specs);
      }
    }
  }

  /** The worklist ends on every finite graph, cyclic or not, and answers reachability exactly. */
  method HasUpstream(spec: StageSpec, name: string, specs: map<string, StageSpec>) returns (r: bool)
    ensures r <==> Reaches(spec.dependsOn, name, specs)
  {
    var visited: set<string> := {};
    var frontier := spec.dependsOn;
    ghost var universe := Universe(spec, specs);
    DirectlyReached(spec, specs);
    while frontier != []
      invariant name !in visited && visited <= universe
      invariant Elements(frontier) <= universe && AllReached(Elements(frontier), spec, specs)
      invariant Elements(spec.dependsOn) <= visited + Elements(frontier)
      invariant Expanded(visited, Elements(frontier), specs)
      decreases universe - visited, |frontier|
    {
      ElementsPopped(frontier);
      var next := frontier[|frontier| - 1];
      frontier := frontier[..|frontier| - 1];
      if next in visited { continue; }
      visited := visited + {next};
      if next == name { return true; }
      if next !in specs { continue; }
      ExpandOne(spec, next, specs);
      ElementsAppended(frontier, specs[next].dependsOn);
      frontier := frontier + specs[next].dependsOn;
    }
    UnvisitedUnreached(visited, spec, name, specs);
    return false;
  }

  // ----- stale artifacts downstream of an unsatisfied stage

  datatype StageRecord = StageRecord(name: string, status: StageStatus, present: bool, trust: Trust,
                                     oldArtifactUsed: bool, forcePassed: bool, blockedBy: Option<string>)

  ghost predicate StaleBelow(graph: seq<StageSpec>, records: map<string, StageRecord>, bad: StageSpec, other: StageSpec) {
    && bad in graph && other in graph && other.name != bad.name
    && bad.name in records && Unsatisfied(records[bad.name].status)
    && other.name in records && records[other.name].present
    && Reaches(other.dependsOn, bad.name, NameMap(graph))
  }

  method ZombieArtifactRisk(graph: seq<StageSpec>, records: map<string, StageRecord>) returns (r: bool)
    ensures r <==> exists bad, other :: StaleBelow(graph, records, bad, other)
  {
    var specs := NameMap(graph);
    for i := 0 to |graph|
      invariant forall k, other :: 0 <= k < i ==> !StaleBelow(graph, records, graph[k], other)
    {
      var bad := graph[i];
      if bad.name !in records { continue; }
      if !Unsatisfied(records[bad.name].status) { continue; }
      for j := 0 to |graph|
        invariant forall k :: 0 <= k < j ==> !StaleBelow(graph, records, bad, graph[k])
      {
        var other := graph[j];
        if other.name == bad.name { continue; }
        var upstream := HasUpstream(other, bad.name, specs);
        if !upstream { continue; }
        if other.name in records && records[other.name].present {
          assert StaleBelow(graph, records, bad, other);
          return true;
        }
      }
    }
    return false;
  }
}
