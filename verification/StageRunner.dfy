/**
 * The verify-act-verify stage runner. Stage actions are arbitrary functions on the run directory;
 * content digests and the JSON encoding of records are parameters.
 */
module StageRunner {
  import opened Sequences

  type Bytes = seq<bv8>

  /** What a path of the run directory resolves to: a file in it, or a place that a link leads to outside it. */
  datatype Entry = Content(bytes: Bytes) | Escaped(isFile: bool)

  type Files = map<string, Entry>

  // ----- artifacts.py

  /** A resolved path: relative to the run directory, or outside it. */
  datatype Location = Inside(relative: string) | Outside(absolute: string)

  datatype ArtifactRecord = ArtifactRecord(path: string, bytes: nat, sha256: string)

  datatype RunError = EscapesRunDirectory | MissingArtifact | ArtifactChanged | ActionRaised | FileExists | InvalidOrder

  predicate Verified(digest: Bytes -> string, files: Files, r: ArtifactRecord) {
    r.path in files && files[r.path].Content? && |files[r.path].bytes| == r.bytes && digest(files[r.path].bytes) == r.sha256
  }

  ghost predicate AllVerified(digest: Bytes -> string, files: Files, records: seq<ArtifactRecord>) {
    forall r :: r in records ==> Verified(digest, files, r)
  }

  /** The k-th record is the first that does not verify, and this is why. */
  ghost predicate FirstBadAt(digest: Bytes -> string, files: Files, records: seq<ArtifactRecord>, k: nat, e: RunError) {
    && k < |records| && !Verified(digest, files, records[k])
    && (forall m :: 0 <= m < k ==> Verified(digest, files, records[m]))
    && e == (if records[k].path !in files then MissingArtifact
             else if files[records[k].path].Escaped? then EscapesRunDirectory
             else ArtifactChanged)
  }

  function RecordOf(digest: Bytes -> string, files: Files, where: Location): Result<ArtifactRecord, RunError> {
    if where.Outside? then Err(EscapesRunDirectory)
    else if where.relative !in files then Err(MissingArtifact)
    else match files[where.relative]
      case Escaped(_) => Err(EscapesRunDirectory)
      case Content(bytes) => Ok(ArtifactRecord(where.relative, |bytes|, digest(bytes)))
  }

  /** The records of all outputs, or the first error. */
  function RecordsOf(digest: Bytes -> string, files: Files, outputs: seq<Location>): Result<seq<ArtifactRecord>, RunError> {
    if outputs == [] then Ok([])
    else
      var last := RecordOf(digest, files, outputs[|outputs| - 1]);
      var rest := RecordsOf(digest, files, outputs[..|outputs| - 1]);
      if rest.Err? then rest else if last.Err? then Err(last.error) else Ok(rest.value + [last.value])
  }

  // ----- runner.py

  datatype ActionResult = Returns(files: Files, outputs: seq<Location>) | Raises(files: Files)

  datatype Stage = Stage(name: string, dependsOn: seq<string>, action: Files -> ActionResult)

  datatype Status = Pass | Fail | Skipped

  datatype StageRun = StageRun(name: string, status: Status, artifacts: seq<ArtifactRecord>, blockedBy: seq<string>, error: Option<RunError>)

  predicate ValidName(s: string) {
    && s != [] && 'a' <= s[0] <= 'z'
    && forall i :: 0 < i < |s| ==> 'a' <= s[i] <= 'z' || '0' <= s[i] <= '9' || s[i] == '_'
  }

  function StageFile(name: string): string { "stages/" + name + ".json" }

  /** Names are well formed and unique, and dependencies refer to earlier stages only. */
  ghost predicate ValidOrder(stages: seq<Stage>) {
    && (forall i :: 0 <= i < |stages| ==> ValidName(stages[i].name))
    && (forall i, j :: 0 <= i < j < |stages| ==> stages[i].name != stages[j].name)
    && (forall i, d :: 0 <= i < |stages| && d in stages[i].dependsOn ==> NamedBefore(stages, i, d))
  }

  ghost predicate NamedBefore(stages: seq<Stage>, i: nat, name: string)
    requires i <= |stages|
  {
    exists j :: 0 <= j < i && stages[j].name == name
  }

  /** What is observed around one stage. */
  datatype Step = Step(known: seq<ArtifactRecord>, before: Files, acted: Files, after: Files, run: StageRun)

  /** How the outcome of a stage follows from the files it found and the stages that block it. */
  ghost predicate StepFits(digest: Bytes -> string, stage: Stage, s: Step) {
    && s.run.name == stage.name
    && if s.run.blockedBy != [] then s.run.status == Skipped && s.run.artifacts == [] && s.acted == s.before
       else if !AllVerified(digest, s.before, s.known) then s.run.status == Fail && s.run.artifacts == [] && s.acted == s.before
       else
         var result := stage.action(s.before);
         && s.acted == result.files
         && if result.Raises? || !AllVerified(digest, s.acted, s.known) || RecordsOf(digest, s.acted, result.outputs).Err?
            then s.run.status == Fail && s.run.artifacts == []
            else s.run.status == Pass && Ok(s.run.artifacts) == RecordsOf(digest, s.acted, result.outputs)
  }

  /** The record of a stage is published under a fresh name and touches nothing else. */
  ghost predicate Published(encode: StageRun -> Bytes, s: Step) {
    StageFile(s.run.name) !in s.acted && s.after == s.acted[StageFile(s.run.name) := Content(encode(s.run))]
  }

  ghost predicate Follows(prev: Step, s: Step) {
    s.before == prev.after && s.known == prev.known + prev.run.artifacts
  }

  ghost predicate NotPassed(stages: seq<Stage>, steps: seq<Step>, i: nat, name: string)
    requires i <= |stages| && i <= |steps|
  {
    exists j :: 0 <= j < i && stages[j].name == name && steps[j].run.status != Pass
  }

  /** The blocking dependencies are exactly the ones that did not pass. */
  ghost predicate BlockedBy(stages: seq<Stage>, steps: seq<Step>, i: nat, blocked: seq<string>)
    requires i < |stages| && i <= |steps|
  {
    forall d :: d in blocked <==> d in stages[i].dependsOn && NotPassed(stages, steps, i, d)
  }

  /** The steps of a run, complete or cut short by a record that could not be published. */
  ghost predicate Trace(digest: Bytes -> string, encode: StageRun -> Bytes, stages: seq<Stage>, steps: seq<Step>) {
    |steps| <= |stages| && forall i :: 0 <= i < |steps| ==> StepAt(digest, encode, stages, steps, i)
  }

  ghost predicate StepAt(digest: Bytes -> string, encode: StageRun -> Bytes, stages: seq<Stage>, steps: seq<Step>, i: nat)
    requires i < |steps| <= |stages|
  {
    && StepFits(digest, stages[i], steps[i])
    && Published(encode, steps[i])
    && BlockedBy(stages, steps, i, steps[i].run.blockedBy)
    && (i > 0 ==> Follows(steps[i - 1], steps[i]))
  }

  class RunDirectory {
    var files: Files
    const digest: Bytes -> string
    const encode: StageRun -> Bytes

    constructor (files: Files, digest: Bytes -> string, encode: StageRun -> Bytes)
      ensures this.files == files && this.digest == digest && this.encode == encode
    {
      this.files, this.digest, this.encode := files, digest, encode;
    }

    /** The scan stops at the first record that does not match. */
    method VerifyArtifacts(records: seq<ArtifactRecord>) returns (error: Option<RunError>)
      ensures error.None? <==> AllVerified(digest, files, records)
      ensures error.Some? ==> exists k: nat :: FirstBadAt(digest, files, records, k, error.value)
    {
      for i := 0 to |records|
        invariant forall k :: 0 <= k < i ==> Verified(digest, files, records[k])
      {
        var r := records[i];
        if r.path in files && files[r.path].Escaped? {
          assert r in records && FirstBadAt(digest, files, records, i, EscapesRunDirectory);
          return Some(EscapesRunDirectory);
        }
        if r.path !in files {
          assert r in records && FirstBadAt(digest, files, records, i, MissingArtifact);
          return Some(MissingArtifact);
        }
        if |files[r.path].bytes| != r.bytes || digest(files[r.path].bytes) != r.sha256 {
          assert r in records && FirstBadAt(digest, files, records, i, ArtifactChanged);
          return Some(ArtifactChanged);
        }
      }
      return None;
    }

    method RecordOutputs(outputs: seq<Location>) returns (r: Result<seq<ArtifactRecord>, RunError>)
      ensures r == RecordsOf(digest, files, outputs)
    {
      var out: seq<ArtifactRecord> := [];
      for i := 0 to |outputs|
        invariant RecordsOf(digest, files, outputs[..i]) == Ok(out)
      {
        assert outputs[..i + 1][..i] == outputs[..i] && outputs[..i + 1][i] == outputs[i];
        var one := RecordOf(digest, files, outputs[i]);
        if one.Err? {
          FirstErrorWins(digest, files, outputs, i + 1);
          return Err(one.error);
        }
        out := out + [one.value];
      }
      assert outputs[..|outputs|] == outputs;
      return Ok(out);
    }

    /** Write-once publication: an existing file is never replaced. */
    method Publish(path: string, payload: Bytes) returns (error: Option<RunError>)
      modifies this`files
      ensures error.Some? <==> path in old(files)
      ensures files == if path in old(files) then old(files) else old(files)[path := Content(payload)]
    {
      if path in files { return Some(FileExists); }
      files := files[path := Content(payload)];
      return None;
    }

    /** Verify, act, verify again, record: any error along the way fails the stage. */
    method Attempt(stage: Stage, known: seq<ArtifactRecord>) returns (run: StageRun)
      modifies this`files
      ensures run.name == stage.name && run.blockedBy == []
      ensures !AllVerified(digest, old(files), known) ==> run.status == Fail && run.artifacts == [] && files == old(files)
      ensures AllVerified(digest, old(files), known) ==>
        var result := stage.action(old(files));
        && files == result.files
        && if result.Raises? || !AllVerified(digest, files, known) || RecordsOf(digest, files, result.outputs).Err?
           then run.status == Fail && run.artifacts == []
           else run.status == Pass && Ok(run.artifacts) == RecordsOf(digest, files, result.outputs)
    {
      var error := VerifyArtifacts(known);
      if error.Some? { return StageRun(stage.name, Fail, [], [], error); }
      var result := stage.action(files);
      files := result.files;
      if result.Raises? { return StageRun(stage.name, Fail, [], [], Some(ActionRaised)); }
      error := VerifyArtifacts(known);
      if error.Some? { return StageRun(stage.name, Fail, [], [], error); }
      var artifacts := RecordOutputs(result.outputs);
      if artifacts.Err? { return StageRun(stage.name, Fail, [], [], Some(artifacts.error)); }
      return StageRun(stage.name, Pass, artifacts.value, [], None);
    }

    /** One pass of the loop; the step is meaningful unless the record already existed. */
    method RunStage(stage: Stage, known: seq<ArtifactRecord>, blocked: seq<string>) returns (clash: bool, ghost step: Step, run: StageRun)
      modifies this`files
      ensures step.before == old(files) && step.known == known && step.run == run && run.blockedBy == blocked
      ensures StepFits(digest, stage, step)
      ensures !clash ==> Published(encode, step) && files == step.after
      ensures clash ==> StageFile(stage.name) in step.acted && StageFile(stage.name) in files
    {
      ghost var before := files;
      run := StageRun(stage.name, Skipped, [], blocked, None);
      if blocked == [] { run := Attempt(stage, known); }
      ghost var acted := files;
      var error := Publish(StageFile(stage.name), encode(run));
      clash := error.Some?;
      step := Step(known, before, acted, files, run);
    }

    /** The run's metadata is the first artifact, if it is a file. */
    method RecordMetadata(metadata: string) returns (r: Result<seq<ArtifactRecord>, RunError>)
      ensures r == if MetadataEscapes(files, metadata) then Err(EscapesRunDirectory) else Ok(InitialRecords(digest, files, metadata))
    {
      if metadata !in files { return Ok([]); }
      match files[metadata]
      case Escaped(isFile) => return if isFile then Err(EscapesRunDirectory) else Ok([]);
      case Content(bytes) => return Ok([ArtifactRecord(metadata, |bytes|, digest(bytes))]);
    }

    /** Runs the stages in order; the only early exit is a record that already exists. */
    method ExecuteStages(stages: seq<Stage>, metadata: string) returns (r: Result<seq<StageRun>, RunError>, ghost steps: seq<Step>)
      modifies this`files
      ensures r == Err(InvalidOrder) <==> !ValidOrder(stages)
      ensures r == Err(EscapesRunDirectory) <==> ValidOrder(stages) && MetadataEscapes(old(files), metadata)
      ensures r == Err(InvalidOrder) || r == Err(EscapesRunDirectory) ==> files == old(files) && steps == []
      ensures Trace(digest, encode, stages, steps)
      ensures steps != [] ==> steps[0].before == old(files) && steps[0].known == InitialRecords(digest, old(files), metadata)
      ensures r.Ok? ==> |steps| == |stages| && r.value == RunsOf(steps)
      ensures r.Ok? ==> files == if steps == [] then old(files) else steps[|steps| - 1].after
      ensures r.Err? && r.error != InvalidOrder && r.error != EscapesRunDirectory ==>
        r.error == FileExists && |steps| < |stages| && StageFile(stages[|steps|].name) in files
      ensures r == Err(FileExists) ==> exists s :: ClashesWith(digest, stages, steps, old(files), s)
    {
      steps := [];
      var ok := CheckOrder(stages);
      if !ok { return Err(InvalidOrder), []; }
      var first := RecordMetadata(metadata);
      if first.Err? { return Err(EscapesRunDirectory), []; }
      var known := first.value;
      var runs: map<string, StageRun> := map[];
      var out: seq<StageRun> := [];
      for i := 0 to |stages|
        invariant |steps| == i && out == RunsOf(steps)
        invariant RunsIndexed(stages, steps, runs) == true
        invariant Trace(digest, encode, stages, steps) == true
        invariant CaughtUp(steps, old(files), first.value, files, known) == true
      {
        var blocked := Blocked(stages, i, runs, steps);
        var clash, step, run := RunStage(stages[i], known, blocked);
        if clash {
          assert ClashesWith(digest, stages, steps, old(files), step);
          return Err(FileExists), steps;
        }
        TraceExtends(digest, encode, stages, steps, step);
        RunsIndexedExtends(stages, steps, runs, step);
        steps := steps + [step];
        known := known + run.artifacts;
        runs := runs[stages[i].name := run];
        out := out + [run];
      }
      return Ok(out), steps;
    }

    method CheckOrder(stages: seq<Stage>) returns (ok: bool)
      ensures ok <==> ValidOrder(stages)
    {
      var seen: set<string> := {};
      for i := 0 to |stages|
        invariant forall n :: n in seen <==> NamedBefore(stages, i, n)
        invariant forall a :: 0 <= a < i ==> ValidName(stages[a].name)
        invariant forall a, b :: 0 <= a < b < i ==> stages[a].name != stages[b].name
        invariant forall a, d :: 0 <= a < i && d in stages[a].dependsOn ==> NamedBefore(stages, a, d)
      {
        var stage := stages[i];
        if !ValidName(stage.name) || stage.name in seen || !((set d | d in stage.dependsOn) <= seen) {
          if stage.name in seen {
            assert NamedBefore(stages, i, stage.name);
          } else if ValidName(stage.name) {
            var d :| d in (set d | d in stage.dependsOn) && d !in seen;
            assert !NamedBefore(stages, i, d);
          }
          return false;
        }
        assert forall d :: d in stage.dependsOn ==> d in (set d | d in stage.dependsOn);
        forall n ensures n in seen + {stage.name} <==> NamedBefore(stages, i + 1, n) {
          if n == stage.name { assert stages[i].name == n; }
          if n in seen { assert NamedBefore(stages, i, n); }
        }
        seen := seen + {stage.name};
      }
      return true;
    }
  }

  /** The step that ended a run early: the file of its record already existed once it had acted. */
  ghost predicate ClashesWith(digest: Bytes -> string, stages: seq<Stage>, steps: seq<Step>, start: Files, s: Step) {
    && |steps| < |stages| && StepFits(digest, stages[|steps|], s)
    && s.before == (if steps == [] then start else steps[|steps| - 1].after)
    && StageFile(stages[|steps|].name) in s.acted
  }

  /** The steps led from the first files and records to these. */
  ghost predicate CaughtUp(steps: seq<Step>, start: Files, first: seq<ArtifactRecord>, files: Files, known: seq<ArtifactRecord>) {
    if steps == [] then files == start && known == first
    else
      var last := steps[|steps| - 1];
      && steps[0].before == start && steps[0].known == first
      && files == last.after && known == last.known + last.run.artifacts
  }

  ghost predicate MetadataEscapes(files: Files, metadata: string) {
    metadata in files && files[metadata] == Escaped(true)
  }

  ghost function InitialRecords(digest: Bytes -> string, files: Files, metadata: string): seq<ArtifactRecord> {
    if metadata in files && files[metadata].Content? then [RecordOf(digest, files, Inside(metadata)).value] else []
  }

  ghost function RunsOf(steps: seq<Step>): seq<StageRun> {
    seq(|steps|, i requires 0 <= i < |steps| => steps[i].run)
  }

  ghost predicate RunsIndexed(stages: seq<Stage>, steps: seq<Step>, runs: map<string, StageRun>) {
    && |steps| <= |stages|
    && forall j :: 0 <= j < |steps| ==> stages[j].name in runs && runs[stages[j].name] == steps[j].run
  }

  lemma RunsIndexedExtends(stages: seq<Stage>, steps: seq<Step>, runs: map<string, StageRun>, s: Step)
    requires ValidOrder(stages) && RunsIndexed(stages, steps, runs) && |steps| < |stages|
    ensures RunsIndexed(stages, steps + [s], runs[stages[|steps|].name := s.run])
  {
    forall j | 0 <= j < |steps| ensures stages[j].name != stages[|steps|].name {
    }
  }

  method Blocked(stages: seq<Stage>, i: nat, runs: map<string, StageRun>, ghost steps: seq<Step>) returns (blocked: seq<string>)
    requires i < |stages| && ValidOrder(stages) && |steps| == i && RunsIndexed(stages, steps, runs)
    ensures BlockedBy(stages, steps, i, blocked)
  {
    blocked := [];
    var deps := stages[i].dependsOn;
    for k := 0 to |deps|
      invariant forall d :: d in blocked <==> d in deps[..k] && NotPassed(stages, steps, i, d)
    {
      var d := deps[k];
      assert d in stages[i].dependsOn && NamedBefore(stages, i, d);
      if runs[d].status != Pass { blocked := blocked + [d]; }
      assert deps[..k + 1] == deps[..k] + [d];
    }
    assert deps[..|deps|] == deps;
  }

  lemma TraceExtends(digest: Bytes -> string, encode: StageRun -> Bytes, stages: seq<Stage>, steps: seq<Step>, s: Step)
    requires Trace(digest, encode, stages, steps) && |steps| < |stages|
    requires BlockedBy(stages, steps, |steps|, s.run.blockedBy)
    requires StepFits(digest, stages[|steps|], s) && Published(encode, s)
    requires steps != [] ==> Follows(steps[|steps| - 1], s)
    ensures Trace(digest, encode, stages, steps + [s])
  {
    var next := steps + [s];
    forall i | 0 <= i < |next| ensures StepAt(digest, encode, stages, next, i) {
      if i < |steps| {
        assert StepAt(digest, encode, stages, steps, i);
        BlockedLooksBack(stages, steps, s, i, steps[i].run.blockedBy);
      } else {
        BlockedLooksBack(stages, steps, s, i, s.run.blockedBy);
      }
    }
  }

  /** What blocks a stage depends on the steps before it alone. */
  lemma BlockedLooksBack(stages: seq<Stage>, steps: seq<Step>, s: Step, i: nat, blocked: seq<string>)
    requires i < |stages| && i <= |steps| && BlockedBy(stages, steps, i, blocked)
    ensures BlockedBy(stages, steps + [s], i, blocked)
  {
    forall d ensures NotPassed(stages, steps + [s], i, d) == NotPassed(stages, steps, i, d) {
      assert forall j :: 0 <= j < i ==> (steps + [s])[j] == steps[j];
    }
  }

  lemma {:induction false} FirstErrorWins(digest: Bytes -> string, files: Files, outputs: seq<Location>, n: nat)
    requires 0 < n <= |outputs| && RecordsOf(digest, files, outputs[..n]).Err?
    ensures RecordsOf(digest, files, outputs) == RecordsOf(digest, files, outputs[..n])
    decreases |outputs|
  {
    if n < |outputs| {
      var init := outputs[..|outputs| - 1];
      assert init[..n] == outputs[..n];
      FirstErrorWins(digest, files, init, n);
    } else {
      assert outputs[..n] == outputs;
    }
  }

  // ----- properties of every run

  ghost predicate Injective(digest: Bytes -> string) {
    forall a, b :: digest(a) == digest(b) ==> a == b
  }

  lemma IndexOf(stages: seq<Stage>, i: nat, d: string) returns (j: nat)
    requires ValidOrder(stages) && i < |stages| && d in stages[i].dependsOn
    ensures j < i && stages[j].name == d
  {
    assert NamedBefore(stages, i, d);
    j :| 0 <= j < i && stages[j].name == d;
  }

  /** Stage i is skipped exactly when one of its direct dependencies did not pass. */
  lemma SkippedExactlyWhenBlocked(digest: Bytes -> string, encode: StageRun -> Bytes, stages: seq<Stage>, steps: seq<Step>, i: nat)
    requires ValidOrder(stages) && Trace(digest, encode, stages, steps) && i < |steps|
    ensures steps[i].run.status == Skipped <==>
              exists j :: 0 <= j < i && stages[j].name in stages[i].dependsOn && steps[j].run.status != Pass
  {
    var blocked := steps[i].run.blockedBy;
    assert StepAt(digest, encode, stages, steps, i);
    if blocked != [] {
      var d := blocked[0];
      assert d in blocked;
      assert NotPassed(stages, steps, i, d);
      var j :| 0 <= j < i && stages[j].name == d && steps[j].run.status != Pass;
      assert stages[j].name in stages[i].dependsOn;
    } else {
      forall j | 0 <= j < i && stages[j].name in stages[i].dependsOn ensures steps[j].run.status == Pass {
        var d := stages[j].name;
        assert NotPassed(stages, steps, i, d) ==> d in blocked;
      }
    }
  }

  /** A dependency path, from a direct dependency of stage i down to stage a, by index. */
  ghost predicate DependsVia(stages: seq<Stage>, i: nat, path: seq<nat>, a: nat)
    requires i < |stages|
  {
    && path != [] && path[|path| - 1] == a
    && (forall k :: 0 <= k < |path| ==> path[k] < |stages|)
    && stages[path[0]].name in stages[i].dependsOn
    && forall k :: 0 <= k < |path| - 1 ==> stages[path[k + 1]].name in stages[path[k]].dependsOn
  }

  /** A stage passes only if every stage it depends on, directly or not, passed before it. */
  lemma {:induction false} PassNeedsAllAncestors(digest: Bytes -> string, encode: StageRun -> Bytes, stages: seq<Stage>, steps: seq<Step>,
                                                 i: nat, path: seq<nat>, a: nat)
    requires ValidOrder(stages) && Trace(digest, encode, stages, steps) && i < |steps|
    requires steps[i].run.status == Pass && DependsVia(stages, i, path, a)
    ensures a < i && steps[a].run.status == Pass
    decreases |path|
  {
    var j := IndexOf(stages, i, stages[path[0]].name);
    SameName(stages, j, path[0]);
    SkippedExactlyWhenBlocked(digest, encode, stages, steps, i);
    assert steps[j].run.status == Pass;
    if |path| > 1 {
      var rest := path[1..];
      assert stages[path[0 + 1]].name in stages[path[0]].dependsOn;
      forall k | 0 <= k < |rest| - 1 ensures stages[rest[k + 1]].name in stages[rest[k]].dependsOn {
        assert rest[k] == path[k + 1] && rest[k + 1] == path[k + 1 + 1];
      }
      PassNeedsAllAncestors(digest, encode, stages, steps, j, rest, a);
    }
  }

  lemma SameName(stages: seq<Stage>, i: nat, j: nat)
    requires ValidOrder(stages) && i < |stages| && j < |stages| && stages[i].name == stages[j].name
    ensures i == j
  {
  }

  lemma {:induction false} FreshRecordsVerify(digest: Bytes -> string, files: Files, outputs: seq<Location>)
    requires RecordsOf(digest, files, outputs).Ok?
    ensures AllVerified(digest, files, RecordsOf(digest, files, outputs).value)
  {
    if outputs != [] { FreshRecordsVerify(digest, files, outputs[..|outputs| - 1]); }
  }

  /** Publishing a record cannot break an artifact, because it never replaces a file. */
  lemma PublishingKeepsArtifacts(digest: Bytes -> string, encode: StageRun -> Bytes, s: Step, records: seq<ArtifactRecord>)
    requires Published(encode, s) && AllVerified(digest, s.acted, records)
    ensures AllVerified(digest, s.after, records)
  {
    forall r | r in records ensures Verified(digest, s.after, r) {
      assert Verified(digest, s.acted, r);
    }
  }

  /** When a stage passes, every artifact recorded so far, its own included, verifies. */
  lemma AtPassEverythingVerifies(digest: Bytes -> string, encode: StageRun -> Bytes, stages: seq<Stage>, steps: seq<Step>, i: nat)
    requires Trace(digest, encode, stages, steps) && i < |steps| && steps[i].run.status == Pass
    ensures AllVerified(digest, steps[i].before, steps[i].known)
    ensures AllVerified(digest, steps[i].acted, steps[i].known)
    ensures AllVerified(digest, steps[i].after, steps[i].known + steps[i].run.artifacts)
  {
    var s := steps[i];
    assert StepAt(digest, encode, stages, steps, i);
    FreshRecordsVerify(digest, s.acted, stages[i].action(s.before).outputs);
    forall r | r in s.known + s.run.artifacts ensures Verified(digest, s.acted, r) {
      if r in s.known { assert Verified(digest, s.acted, r); } else { assert r in s.run.artifacts; }
    }
    PublishingKeepsArtifacts(digest, encode, s, s.known + s.run.artifacts);
  }

  /** Without digest collisions, the action of a passing stage left every earlier artifact as it was. */
  lemma PassingStageChangesNoArtifact(digest: Bytes -> string, encode: StageRun -> Bytes, stages: seq<Stage>, steps: seq<Step>,
                                      i: nat, r: ArtifactRecord)
    requires Injective(digest) && Trace(digest, encode, stages, steps) && i < |steps|
    requires steps[i].run.status == Pass && r in steps[i].known
    ensures r.path in steps[i].before && r.path in steps[i].acted && r.path in steps[i].after
    ensures steps[i].before[r.path] == steps[i].acted[r.path] == steps[i].after[r.path]
  {
    AtPassEverythingVerifies(digest, encode, stages, steps, i);
    assert Verified(digest, steps[i].before, r) && Verified(digest, steps[i].acted, r);
    assert r in steps[i].known + steps[i].run.artifacts;
    assert Verified(digest, steps[i].after, r);
  }

  lemma {:induction false} KnownGrows(digest: Bytes -> string, encode: StageRun -> Bytes, stages: seq<Stage>, steps: seq<Step>, i: nat, j: nat)
    requires Trace(digest, encode, stages, steps) && i <= j < |steps|
    ensures forall r :: r in steps[i].known ==> r in steps[j].known
    ensures i < j ==> forall r :: r in steps[i].run.artifacts ==> r in steps[j].known
  {
    if i < j {
      KnownGrows(digest, encode, stages, steps, i, j - 1);
      assert StepAt(digest, encode, stages, steps, j);
    }
  }

  /**
   * What a stage recorded is still there, byte for byte, after every later stage that passes --
   * whatever the stages between them did, and whether or not they passed.
   */
  lemma RecordedArtifactsSurvive(digest: Bytes -> string, encode: StageRun -> Bytes, stages: seq<Stage>, steps: seq<Step>,
                                 i: nat, j: nat, r: ArtifactRecord)
    requires Injective(digest) && Trace(digest, encode, stages, steps) && i <= j < |steps|
    requires steps[i].run.status == Pass && steps[j].run.status == Pass && r in steps[i].run.artifacts
    ensures r.path in steps[i].after && r.path in steps[j].after && steps[j].after[r.path] == steps[i].after[r.path]
  {
    AtPassEverythingVerifies(digest, encode, stages, steps, i);
    AtPassEverythingVerifies(digest, encode, stages, steps, j);
    assert r in steps[i].known + steps[i].run.artifacts;
    assert Verified(digest, steps[i].after, r);
    if i < j { KnownGrows(digest, encode, stages, steps, i, j); }
    assert r in steps[j].known + steps[j].run.artifacts;
    assert Verified(digest, steps[j].after, r);
  }

  /** A stage whose action damages a recorded artifact does not pass. */
  lemma TamperingIsCaught(digest: Bytes -> string, encode: StageRun -> Bytes, stages: seq<Stage>, steps: seq<Step>, i: nat, r: ArtifactRecord)
    requires Injective(digest) && Trace(digest, encode, stages, steps) && i < |steps| && r in steps[i].known
    requires r.path in steps[i].before
    requires r.path !in steps[i].acted || steps[i].acted[r.path] != steps[i].before[r.path]
    ensures steps[i].run.status == Fail
  {
    assert StepAt(digest, encode, stages, steps, i);
    if steps[i].run.status == Pass {
      PassingStageChangesNoArtifact(digest, encode, stages, steps, i, r);
      assert false;
    }
  }

  /**
   * Damage is final: once a recorded artifact does not verify, no later stage acts or passes, and the
   * artifact still does not verify, unless a stage record is published under its own path.
   */
  lemma {:induction false} DamageIsPermanent(digest: Bytes -> string, encode: StageRun -> Bytes, stages: seq<Stage>, steps: seq<Step>,
                                             i: nat, j: nat, r: ArtifactRecord)
    requires Trace(digest, encode, stages, steps) && i <= j < |steps|
    requires r in steps[i].known && !Verified(digest, steps[i].before, r)
    requires forall k :: i <= k <= j ==> r.path != StageFile(steps[k].run.name)
    ensures r in steps[j].known && !Verified(digest, steps[j].before, r) && !Verified(digest, steps[j].after, r)
    ensures steps[j].run.status != Pass && steps[j].acted == steps[j].before
  {
    assert StepAt(digest, encode, stages, steps, j);
    if i < j {
      DamageIsPermanent(digest, encode, stages, steps, i, j - 1, r);
    }
    assert !AllVerified(digest, steps[j].before, steps[j].known);
  }

  /** A stage whose action damages a recorded artifact is the last one to act: it and all later stages do not pass. */
  lemma TamperingEndsTheRun(digest: Bytes -> string, encode: StageRun -> Bytes, stages: seq<Stage>, steps: seq<Step>,
                            i: nat, j: nat, r: ArtifactRecord)
    requires Trace(digest, encode, stages, steps) && i < j < |steps|
    requires r in steps[i].known && !Verified(digest, steps[i].acted, r)
    requires forall k :: i <= k <= j ==> r.path != StageFile(steps[k].run.name)
    ensures steps[j].run.status != Pass && steps[j].acted == steps[j].before && !Verified(digest, steps[j].after, r)
  {
    assert StepAt(digest, encode, stages, steps, i) && StepAt(digest, encode, stages, steps, i + 1);
    DamageIsPermanent(digest, encode, stages, steps, i + 1, j, r);
  }

  // ----- outcomes, read from the files

  /** The bytes at a path of the run directory are those a record describes. */
  ghost predicate Describes(digest: Bytes -> string, files: Files, r: ArtifactRecord) {
    exists bytes :: r.path in files && files[r.path] == Content(bytes) && |bytes| == r.bytes && digest(bytes) == r.sha256
  }

  ghost predicate AllDescribed(digest: Bytes -> string, files: Files, records: seq<ArtifactRecord>) {
    forall i :: 0 <= i < |records| ==> Describes(digest, files, records[i])
  }

  lemma DescribedMeansVerified(digest: Bytes -> string, files: Files, records: seq<ArtifactRecord>)
    ensures AllDescribed(digest, files, records) <==> AllVerified(digest, files, records)
  {
    forall r ensures Describes(digest, files, r) <==> Verified(digest, files, r) {
      if Verified(digest, files, r) { assert files[r.path] == Content(files[r.path].bytes); }
    }
  }

  /** The output is a file inside the run directory, and this is its record. */
  ghost predicate RecordsOutput(digest: Bytes -> string, files: Files, where: Location, r: ArtifactRecord) {
    && where == Inside(r.path) && r.path in files
    && exists bytes :: files[r.path] == Content(bytes) && r == ArtifactRecord(r.path, |bytes|, digest(bytes))
  }

  lemma OneRecord(digest: Bytes -> string, files: Files, where: Location, r: ArtifactRecord)
    ensures RecordsOutput(digest, files, where, r) <==> RecordOf(digest, files, where) == Ok(r)
  {
    if RecordOf(digest, files, where) == Ok(r) { assert files[r.path] == Content(files[r.path].bytes); }
  }

  ghost predicate RecordsOutputs(digest: Bytes -> string, files: Files, outputs: seq<Location>, records: seq<ArtifactRecord>) {
    |records| == |outputs| && forall i :: 0 <= i < |outputs| ==> RecordsOutput(digest, files, outputs[i], records[i])
  }

  lemma RecordsSplit(digest: Bytes -> string, files: Files, outputs: seq<Location>, records: seq<ArtifactRecord>)
    requires |outputs| == |records| > 0
    ensures RecordsOutputs(digest, files, outputs, records) <==>
            && RecordsOutputs(digest, files, outputs[..|outputs| - 1], records[..|records| - 1])
            && RecordsOutput(digest, files, outputs[|outputs| - 1], records[|records| - 1])
  {
    var n := |outputs| - 1;
    if RecordsOutputs(digest, files, outputs, records) {
      forall i | 0 <= i < n ensures RecordsOutput(digest, files, outputs[..n][i], records[..n][i]) {
        assert RecordsOutput(digest, files, outputs[i], records[i]);
      }
      assert RecordsOutput(digest, files, outputs[n], records[n]);
    } else if RecordsOutputs(digest, files, outputs[..n], records[..n]) {
      forall i | 0 <= i < n ensures RecordsOutput(digest, files, outputs[i], records[i]) {
        assert RecordsOutput(digest, files, outputs[..n][i], records[..n][i]);
      }
    }
  }

  lemma {:induction false} RecordsLength(digest: Bytes -> string, files: Files, outputs: seq<Location>)
    ensures RecordsOf(digest, files, outputs).Ok? ==> |RecordsOf(digest, files, outputs).value| == |outputs|
  {
    if outputs != [] { RecordsLength(digest, files, outputs[..|outputs| - 1]); }
  }

  lemma {:induction false} RecordsAreExact(digest: Bytes -> string, files: Files, outputs: seq<Location>, records: seq<ArtifactRecord>)
    ensures RecordsOutputs(digest, files, outputs, records) <==> RecordsOf(digest, files, outputs) == Ok(records)
  {
    RecordsLength(digest, files, outputs);
    if outputs != [] && |records| == |outputs| {
      var n := |outputs| - 1;
      RecordsAreExact(digest, files, outputs[..n], records[..n]);
      OneRecord(digest, files, outputs[n], records[n]);
      RecordsSplit(digest, files, outputs, records);
      assert records == records[..n] + [records[n]];
    }
  }

  /** All stages this one names as dependencies passed before it. */
  ghost predicate DependenciesPassed(stages: seq<Stage>, steps: seq<Step>, i: nat)
    requires i < |steps| <= |stages|
  {
    forall j :: 0 <= j < i && stages[j].name in stages[i].dependsOn ==> steps[j].run.status == Pass
  }

  /** Nothing recorded so far is damaged before the action, the action returns, nothing is damaged after it. */
  ghost predicate ActsCleanly(digest: Bytes -> string, stage: Stage, s: Step) {
    && AllDescribed(digest, s.before, s.known)
    && stage.action(s.before).Returns?
    && AllDescribed(digest, stage.action(s.before).files, s.known)
  }

  /**
   * A stage passes exactly when its dependencies passed, its action returned without damage before or
   * after it, and every output is a file inside the run directory; it then records every output's path,
   * size and digest in order. Blocked stages are skipped, all others fail, and neither records anything.
   */
  lemma OutcomeIsExact(digest: Bytes -> string, encode: StageRun -> Bytes, stages: seq<Stage>, steps: seq<Step>, i: nat)
    requires ValidOrder(stages) && Trace(digest, encode, stages, steps) && i < |steps|
    ensures var s, stage := steps[i], stages[i];
            var result := stage.action(s.before);
            && s.run.name == stage.name
            && (s.run.status == Skipped <==> !DependenciesPassed(stages, steps, i))
            && (s.run.status == Pass <==>
                  && DependenciesPassed(stages, steps, i) && ActsCleanly(digest, stage, s)
                  && exists records :: RecordsOutputs(digest, result.files, result.outputs, records))
            && (s.run.status == Pass ==> s.acted == result.files && RecordsOutputs(digest, s.acted, result.outputs, s.run.artifacts))
            && (s.run.status != Pass ==> s.run.artifacts == [])
  {
    var s, stage := steps[i], stages[i];
    assert StepAt(digest, encode, stages, steps, i);
    SkippedExactlyWhenBlocked(digest, encode, stages, steps, i);
    DescribedMeansVerified(digest, s.before, s.known);
    var result := stage.action(s.before);
    DescribedMeansVerified(digest, result.files, s.known);
    if result.Returns? {
      var all := RecordsOf(digest, result.files, result.outputs);
      if all.Ok? { RecordsAreExact(digest, result.files, result.outputs, all.value); }
      forall records | RecordsOutputs(digest, result.files, result.outputs, records) ensures all == Ok(records) {
        RecordsAreExact(digest, result.files, result.outputs, records);
      }
    }
  }

  /** The metadata a run starts with is guarded like an artifact: at every pass it is as it was at the start. */
  lemma MetadataSurvives(digest: Bytes -> string, encode: StageRun -> Bytes, stages: seq<Stage>, steps: seq<Step>,
                         start: Files, metadata: string, i: nat)
    requires Injective(digest) && Trace(digest, encode, stages, steps) && i < |steps| && steps[i].run.status == Pass
    requires steps[0].before == start && steps[0].known == InitialRecords(digest, start, metadata)
    requires metadata in start && start[metadata].Content?
    ensures metadata in steps[i].before && steps[i].before[metadata] == start[metadata]
    ensures metadata in steps[i].after && steps[i].after[metadata] == start[metadata]
  {
    var r := RecordOf(digest, start, Inside(metadata)).value;
    assert r in steps[0].known && r.path == metadata && r.sha256 == digest(start[metadata].bytes);
    KnownGrows(digest, encode, stages, steps, 0, i);
    AtPassEverythingVerifies(digest, encode, stages, steps, i);
    assert Verified(digest, steps[i].before, r);
    assert r in steps[i].known + steps[i].run.artifacts;
    assert Verified(digest, steps[i].after, r);
  }

  // ----- a run over fresh record names completes

  lemma RecordFilesDiffer(a: string, b: string)
    requires StageFile(a) == StageFile(b)
    ensures a == b
  {
    var p, q := StageFile(a), StageFile(b);
    assert a == p[|"stages/"|..|p| - |".json"|] && b == q[|"stages/"|..|q| - |".json"|];
  }

  /** The action neither creates nor removes the file of any stage's record. */
  ghost predicate LeavesRecordsAlone(stages: seq<Stage>, stage: Stage) {
    forall files, j :: 0 <= j < |stages| ==>
      (StageFile(stages[j].name) in stage.action(files).files <==> StageFile(stages[j].name) in files)
  }

  ghost predicate NoRecordYet(stages: seq<Stage>, files: Files, from: nat) {
    forall j :: from <= j < |stages| ==> StageFile(stages[j].name) !in files
  }

  lemma ActedKeepsRecords(digest: Bytes -> string, stages: seq<Stage>, stage: Stage, s: Step, from: nat)
    requires StepFits(digest, stage, s) && LeavesRecordsAlone(stages, stage) && NoRecordYet(stages, s.before, from)
    ensures NoRecordYet(stages, s.acted, from)
  {
    forall j | from <= j < |stages| ensures StageFile(stages[j].name) !in s.acted {
      assert StageFile(stages[j].name) in stage.action(s.before).files <==> StageFile(stages[j].name) in s.before;
    }
  }

  lemma {:induction false} RecordsComeInOrder(digest: Bytes -> string, encode: StageRun -> Bytes, stages: seq<Stage>, steps: seq<Step>, i: nat)
    requires ValidOrder(stages) && Trace(digest, encode, stages, steps) && i < |steps|
    requires forall j :: 0 <= j < |stages| ==> LeavesRecordsAlone(stages, stages[j])
    requires NoRecordYet(stages, steps[0].before, 0)
    ensures NoRecordYet(stages, steps[i].before, i) && NoRecordYet(stages, steps[i].after, i + 1)
  {
    assert StepAt(digest, encode, stages, steps, i);
    if i > 0 { RecordsComeInOrder(digest, encode, stages, steps, i - 1); }
    ActedKeepsRecords(digest, stages, stages[i], steps[i], i);
    forall j | i + 1 <= j < |stages| ensures StageFile(stages[j].name) !in steps[i].after {
      if StageFile(stages[j].name) == StageFile(stages[i].name) { RecordFilesDiffer(stages[j].name, stages[i].name); }
    }
  }

  /** Where no record exists at the start and no action touches one, nothing ends a run early. */
  lemma FreshRunCompletes(digest: Bytes -> string, encode: StageRun -> Bytes, stages: seq<Stage>, steps: seq<Step>, start: Files, s: Step)
    requires ValidOrder(stages) && Trace(digest, encode, stages, steps) && (steps != [] ==> steps[0].before == start)
    requires forall j :: 0 <= j < |stages| ==> LeavesRecordsAlone(stages, stages[j])
    requires NoRecordYet(stages, start, 0)
    ensures !ClashesWith(digest, stages, steps, start, s)
  {
    if steps != [] { RecordsComeInOrder(digest, encode, stages, steps, |steps| - 1); }
    if |steps| < |stages| && StepFits(digest, stages[|steps|], s)
      && s.before == (if steps == [] then start else steps[|steps| - 1].after)
    {
      ActedKeepsRecords(digest, stages, stages[|steps|], s, |steps|);
    }
  }

  // ----- stage names

  /** The well-formed names, character by character: a lower-case ASCII letter, then such letters, digits and underscores. */
  lemma NamesAreSpelled(s: string, ch: char)
    ensures !ValidName([])
    ensures ValidName([ch]) <==> 97 <= ch as int <= 122
    ensures s != [] ==>
      (ValidName(s + [ch]) <==> ValidName(s) && (97 <= ch as int <= 122 || 48 <= ch as int <= 57 || ch as int == 95))
  {
    if s != [] {
      var t := s + [ch];
      assert t[0] == s[0] && t[|s|] == ch && forall i :: 0 < i < |s| ==> t[i] == s[i];
    }
  }
}
