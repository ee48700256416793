/** The validation pipeline: run the stages, read only the artifacts whose stage
    passed, classify every candidate. Whether a stage's command succeeds and what the
    artifacts hold are parameters. Stage names are a datatype; the numbered shard
    names are distinct because decimal numerals are. The texts of a classification
    (reason, suggested fix) are left out. */
module FullValidation {
  import opened Sequences
  import opened ShardFold
  import opened Sorting
  import opened Text
  import opened Wrappers
  import opened ProviderCompat

  // ---- running the stages ----

  datatype StageName =
    | CommandPipeline | RefreshOnboardingQueue | ConformanceShard(index: nat) | FailureDossiers
    | ProviderCompatMatrix | ScenarioSuite | AutoRepairFullCorpus
    | DiffOfficial | DiffCommunity | DiffThirdparty | DiffNpm | DifferentialSuite

  datatype StageStatus = Passed | Failed | Skipped

  datatype Stage = Stage(name: StageName, status: StageStatus)

  datatype Args = Args(
    aggregateOnly: bool, shards: nat, runDiff: bool, runNpmDiff: bool, failFast: bool, reviewThreshold: real)

  /** `run_stage`: the stage is recorded even when it aborts the run. */
  method RunStage(stages: seq<Stage>, name: StageName, failFast: bool, succeeds: StageName -> bool)
    returns (now: seq<Stage>, abort: bool)
    ensures now == stages + [Stage(name, if succeeds(name) then Passed else Failed)]
    ensures abort <==> failFast && !succeeds(name)
  {
    var status := if succeeds(name) then Passed else Failed;
    now := stages + [Stage(name, status)];
    abort := status == Failed && failFast;
  }

  function ShardPlan(n: nat): (p: seq<StageName>)
    ensures |p| == n && forall i :: 0 <= i < n ==> p[i] == ConformanceShard(i)
  {
    seq(n, i requires 0 <= i < n => ConformanceShard(i))
  }

  /** The commands a run means to execute, in order. */
  function Plan(args: Args): seq<StageName> {
    [RefreshOnboardingQueue] + ShardPlan(args.shards)
    + [FailureDossiers, ProviderCompatMatrix, ScenarioSuite, AutoRepairFullCorpus]
    + if !args.runDiff then []
      else [DiffOfficial, DiffCommunity, DiffThirdparty] + if args.runNpmDiff then [DiffNpm] else []
  }

  /** The stages recorded as skipped at the end of a completed run. */
  function SkippedStages(args: Args): seq<Stage> {
    if !args.runDiff then [Stage(DifferentialSuite, Skipped)]
    else if args.runNpmDiff then []
    else [Stage(DiffNpm, Skipped)]
  }

  function Executed(names: seq<StageName>, succeeds: StageName -> bool): (r: seq<Stage>)
    ensures |r| == |names|
    ensures forall i :: 0 <= i < |names| ==> r[i] == Stage(names[i], if succeeds(names[i]) then Passed else Failed)
  {
    Map(names, n => Stage(n, if succeeds(n) then Passed else Failed))
  }

  function CompletedStages(args: Args, succeeds: StageName -> bool): seq<Stage> {
    if args.aggregateOnly then [Stage(CommandPipeline, Skipped)]
    else Executed(Plan(args), succeeds) + SkippedStages(args)
  }

  /** The run stops after the stages in `done`: it fails fast, and the last of them is the first to fail. */
  ghost predicate AbortsAfter(args: Args, succeeds: StageName -> bool, done: seq<StageName>) {
    && args.failFast && 0 < |done| <= |Plan(args)| && done == Plan(args)[..|done|]
    && !succeeds(done[|done| - 1])
    && forall i :: 0 <= i < |done| - 1 ==> succeeds(done[i])
  }

  /** Every prefix of stages a fail-fast run gets past has passed. */
  ghost predicate Reached(args: Args, succeeds: StageName -> bool, stages: seq<Stage>, n: nat) {
    && n <= |Plan(args)| && stages == Executed(Plan(args)[..n], succeeds)
    && (args.failFast ==> forall i :: 0 <= i < n ==> succeeds(Plan(args)[i]))
  }

  /** One planned step: either the run has reached one stage further, or it aborts there. */
  method RunNext(args: Args, succeeds: StageName -> bool, stages: seq<Stage>, n: nat, name: StageName)
    returns (now: seq<Stage>, abort: bool)
    requires Reached(args, succeeds, stages, n) && n < |Plan(args)| && name == Plan(args)[n]
    ensures !abort ==> Reached(args, succeeds, now, n + 1)
    ensures abort ==> AbortsAfter(args, succeeds, Plan(args)[..n + 1]) && now == Executed(Plan(args)[..n + 1], succeeds)
  {
    hide Plan;
    now, abort := RunStage(stages, name, args.failFast, succeeds);
    assert Plan(args)[..n + 1] == Plan(args)[..n] + [name];
  }

  /** A fixed list of stages that follows stage `n` of the plan. */
  method RunList(args: Args, succeeds: StageName -> bool, stages: seq<Stage>, n: nat, names: seq<StageName>)
    returns (now: seq<Stage>, abort: bool, at: nat)
    requires Reached(args, succeeds, stages, n) && n + |names| <= |Plan(args)|
    requires Plan(args)[n..n + |names|] == names
    ensures !abort ==> at == n + |names| && Reached(args, succeeds, now, at)
    ensures abort ==>
      && at <= |Plan(args)| && AbortsAfter(args, succeeds, Plan(args)[..at])
      && now == Executed(Plan(args)[..at], succeeds)
  {
    hide Plan;
    now, abort, at := stages, false, n;
    for k := 0 to |names|
      invariant at == n + k && !abort && Reached(args, succeeds, now, at)
    {
      assert Plan(args)[n..n + |names|][k] == Plan(args)[n + k];
      now, abort := RunNext(args, succeeds, now, at, names[k]);
      at := at + 1;
      if abort { return; }
    }
  }

  /** `run_commands`: it completes with every planned stage recorded, or aborts at the
      first failure, which only a fail-fast run does. */
  method RunCommands(args: Args, succeeds: StageName -> bool) returns (stages: seq<Stage>, aborted: bool)
    requires !args.aggregateOnly
    ensures aborted <==> args.failFast && exists i :: 0 <= i < |Plan(args)| && !succeeds(Plan(args)[i])
    ensures !aborted ==> stages == CompletedStages(args, succeeds)
    ensures aborted ==> exists n: nat ::
      n <= |Plan(args)| && AbortsAfter(args, succeeds, Plan(args)[..n]) && stages == Executed(Plan(args)[..n], succeeds)
  {
    hide Plan, Executed, Reached, AbortsAfter, ShardPlan, SkippedStages;
    var at;
    stages, aborted := [], false;
    PlanStarts(args, succeeds);
    PlanEnds(args);
    stages, aborted := RunNext(args, succeeds, stages, 0, RefreshOnboardingQueue);
    if aborted { AbortWitness(args, succeeds, 1); return; }
    stages, aborted, at := RunList(args, succeeds, stages, 1, ShardPlan(args.shards));
    if aborted { AbortWitness(args, succeeds, at); return; }
    stages, aborted, at := RunList(args, succeeds, stages, at,
      [FailureDossiers, ProviderCompatMatrix, ScenarioSuite, AutoRepairFullCorpus]);
    if aborted { AbortWitness(args, succeeds, at); return; }
    var rest := [];
    if args.runDiff {
      rest := [DiffOfficial, DiffCommunity, DiffThirdparty] + if args.runNpmDiff then [DiffNpm] else [];
    }
    assert Plan(args)[at..at + |rest|] == Plan(args)[at..];
    stages, aborted, at := RunList(args, succeeds, stages, at, rest);
    if aborted { AbortWitness(args, succeeds, at); return; }
    AllReached(args, succeeds, stages);
    stages := stages + SkippedStages(args);
  }

  lemma PlanStarts(args: Args, succeeds: StageName -> bool)
    ensures Reached(args, succeeds, [], 0) && |ShardPlan(args.shards)| == args.shards
    ensures 5 + args.shards <= |Plan(args)| && Plan(args)[0] == RefreshOnboardingQueue
    ensures Plan(args)[1..1 + args.shards] == ShardPlan(args.shards)
    ensures Plan(args)[1 + args.shards..5 + args.shards]
         == [FailureDossiers, ProviderCompatMatrix, ScenarioSuite, AutoRepairFullCorpus]
  {
  }

  lemma AllReached(args: Args, succeeds: StageName -> bool, stages: seq<Stage>)
    requires Reached(args, succeeds, stages, |Plan(args)|)
    ensures stages == Executed(Plan(args), succeeds)
    ensures args.failFast ==> forall i :: 0 <= i < |Plan(args)| ==> succeeds(Plan(args)[i])
  {
    assert Plan(args)[..|Plan(args)|] == Plan(args);
  }

  /** The stage part of `run`: an aggregate-only run executes nothing and never aborts. */
  method RunStages(args: Args, succeeds: StageName -> bool) returns (stages: seq<Stage>, aborted: bool)
    ensures aborted <==>
      !args.aggregateOnly && args.failFast && exists i :: 0 <= i < |Plan(args)| && !succeeds(Plan(args)[i])
    ensures !aborted ==> stages == CompletedStages(args, succeeds)
  {
    if args.aggregateOnly {
      return [Stage(CommandPipeline, Skipped)], false;
    }
    stages, aborted := RunCommands(args, succeeds);
  }

  lemma PlanEnds(args: Args)
    ensures 5 + args.shards <= |Plan(args)|
    ensures Plan(args)[5 + args.shards..] ==
      if !args.runDiff then []
      else [DiffOfficial, DiffCommunity, DiffThirdparty] + if args.runNpmDiff then [DiffNpm] else []
  {
  }

  lemma AbortWitness(args: Args, succeeds: StageName -> bool, n: nat)
    requires n <= |Plan(args)| && AbortsAfter(args, succeeds, Plan(args)[..n])
    ensures args.failFast && exists i :: 0 <= i < |Plan(args)| && !succeeds(Plan(args)[i])
  {
    assert !succeeds(Plan(args)[n - 1]);
  }

  // ---- gating ----

  /** `stage_passed`: the first stage of that name decides. */
  predicate StagePassed(stages: seq<Stage>, name: StageName) {
    stages != [] && (if stages[0].name == name then stages[0].status == Passed else StagePassed(stages[1..], name))
  }

  lemma {:induction false} StagePassedFirst(stages: seq<Stage>, name: StageName, ok: bool)
    requires exists i :: 0 <= i < |stages| && stages[i].name == name
    requires forall i :: 0 <= i < |stages| && stages[i].name == name ==> (stages[i].status == Passed <==> ok)
    ensures StagePassed(stages, name) <==> ok
  {
    var i :| 0 <= i < |stages| && stages[i].name == name;
    if stages[0].name != name {
      assert stages[1..][i - 1].name == name;
      StagePassedFirst(stages[1..], name, ok);
    }
  }

  /** In a completed run a planned stage counts as passed exactly when its command succeeded. */
  lemma PlannedStagePassed(args: Args, succeeds: StageName -> bool, k: nat)
    requires !args.aggregateOnly && k < |Plan(args)|
    ensures StagePassed(CompletedStages(args, succeeds), Plan(args)[k]) <==> succeeds(Plan(args)[k])
  {
    var stages, name := CompletedStages(args, succeeds), Plan(args)[k];
    assert stages[k].name == name;
    forall i | 0 <= i < |stages| && stages[i].name == name ensures stages[i].status == Passed <==> succeeds(name) {
      if i >= |Plan(args)| {
        assert stages[i] == SkippedStages(args)[i - |Plan(args)|];
        SkippedNotPlanned(args, k);
      }
    }
    StagePassedFirst(stages, name, succeeds(name));
  }

  lemma SkippedNotPlanned(args: Args, k: nat)
    requires k < |Plan(args)|
    ensures Plan(args)[k] != DifferentialSuite
    ensures !args.runDiff || !args.runNpmDiff ==> Plan(args)[k] != DiffNpm
  {
    var head := [RefreshOnboardingQueue] + ShardPlan(args.shards);
    assert k < |head| ==> Plan(args)[k] == head[k];
  }

  predicate ConformanceOk(args: Args, stages: seq<Stage>) {
    args.aggregateOnly || forall i :: 0 <= i < args.shards ==> StagePassed(stages, ConformanceShard(i))
  }

  // ---- classification ----

  datatype Verdict =
    | Pass | PassWithAutoRepair | ProjectBug | ProjectLimitation | ExtensionProblem
    | HarnessGap | NotTestedUnvendored | NotExtension | NeedsReview

  datatype Candidate = Candidate(id: string, status: string, aliases: seq<string>, notes: Option<string>)

  datatype Dossier = Dossier(category: Option<string>, reason: Option<string>)

  datatype Repair = Repair(loaded: bool, error: Option<string>, events: nat)

  datatype Scenarios = Scenarios(pass: nat, fail: nat, error: nat)

  datatype Artifacts = Artifacts(
    manifest: map<string, nat>, reports: seq<Option<ShardReport>>, dossiers: map<string, Dossier>,
    repairs: map<string, Repair>, scenarios: map<string, Scenarios>, providers: FailuresByExtension)

  datatype Context = Context(
    manifest: map<string, nat>, conformance: map<string, ShardResult>, dossiers: map<string, Dossier>,
    repairs: map<string, Repair>, scenarios: map<string, Scenarios>, providers: FailuresByExtension,
    reviewThreshold: real)

  datatype Classification = Classification(verdict: Verdict, confidence: real)

  datatype Assessment = Assessment(id: string, verdict: Verdict, confidence: real, needsReview: bool)

  function FindIn<T>(m: map<string, T>, keys: seq<string>): Option<T> {
    if keys == [] then None else if keys[0] in m then Some(m[keys[0]]) else FindIn(m, keys[1..])
  }

  function Flattened(rest: string): string {
    Map(rest, c => if c == '/' then '-' else c)
  }

  /** `push_candidate_id_variants`: a scoped npm id under its flattened name. */
  function Variants(raw: string): seq<string> {
    if |raw| >= 5 && (raw[..5] == "npm/@" || raw[..5] == "npm:@") then ["npm/" + Flattened(raw[5..])] else []
  }

  function AllVariants(raws: seq<string>): seq<string> {
    if raws == [] then [] else Variants(raws[0]) + AllVariants(raws[1..])
  }

  /** The keys `lookup_by_id_or_alias` tries, in order. */
  function Keys(item: Candidate): seq<string> {
    [item.id] + item.aliases + SortDedup(AllVariants([item.id] + item.aliases))
  }

  function Lookup<T>(m: map<string, T>, item: Candidate): Option<T> { FindIn(m, Keys(item)) }

  function OrElse<T>(a: Option<T>, b: Option<T>): Option<T> { if a.Some? then a else b }

  function Or<T>(a: Option<T>, default: T): T { if a.Some? then a.value else default }

  predicate ContainsAny(s: string, markers: seq<string>) {
    exists i :: 0 <= i < |markers| && Contains(s, markers[i])
  }

  const UNVENDORED_MARKERS := [
    "no extensionapi default-export entrypoint", "no extension entrypoint", "not a pi extension", "not an extension"]

  const NON_EXTENSION_MARKERS := UNVENDORED_MARKERS + [
    "customtoolfactory", "toolapi tool factory", "tool factories", "not tracked as a direct extensionapi",
    "excluded from direct extensionapi", "kept out of master catalog", "typed git utility library surface"]

  function ClassifyUnvendored(item: Candidate): Classification {
    if ContainsAny(Lower(Or(item.notes, "")), UNVENDORED_MARKERS) then Classification(NotExtension, 0.99)
    else Classification(NotTestedUnvendored, 0.97)
  }

  predicate StartsWith(s: string, prefix: string) { |prefix| <= |s| && s[..|prefix|] == prefix }

  /** The auto-repair run could not load the extension, for a reason other than a missing artifact. */
  predicate RepairLoadFailed(repair: Option<Repair>) {
    repair.Some? &&
    var error := Lower(Or(repair.value.error, ""));
    !repair.value.loaded && !StartsWith(error, "artifact not found") && error != ""
  }

  function ClassifyPassing(repair: Option<Repair>, s: Scenarios, providerFailures: nat): Classification {
    if RepairLoadFailed(repair) then Classification(NeedsReview, 0.55)
    else if s.fail > 0 then Classification(ProjectBug, 0.82)
    else if s.error > 0 then Classification(NeedsReview, 0.7)
    else if providerFailures > 0 then Classification(ProjectLimitation, 0.8)
    else if repair.Some? && repair.value.loaded && repair.value.events > 0 then Classification(PassWithAutoRepair, 0.98)
    else Classification(Verdict.Pass, 0.99)
  }

  function ClassifyFailing(category: string, reason: string): Classification {
    if Contains(category, "artifact_missing") then Classification(HarnessGap, 0.96)
    else if Contains(category, "load_spec_error") then Classification(ExtensionProblem, 0.9)
    else if Contains(category, "runtime_start_error") then Classification(ProjectBug, 0.9)
    else if Contains(category, "manifest_missing") || Contains(category, "registration_mismatch")
    then Classification(HarnessGap, 0.86)
    else if Contains(category, "extension_load_error") then
      if ContainsAny(reason, ["module not found", "cannot find module", "cannot resolve", "missing package", "import"])
      then Classification(ProjectLimitation, 0.9)
      else if ContainsAny(reason, ["enoent", "no such file", "readfilesync"])
      then Classification(ExtensionProblem, 0.78)
      else Classification(NeedsReview, 0.45)
    else Classification(NeedsReview, 0.4)
  }

  function ClassifyVendored(
    inManifest: bool, conformance: Option<ShardResult>, repair: Option<Repair>, s: Scenarios, providerFailures: nat,
    category: Option<string>, reason: Option<string>, notes: Option<string>): Classification
  {
    if !inManifest then
      if ContainsAny(Lower(Or(notes, "")), NON_EXTENSION_MARKERS) then Classification(NotExtension, 0.99)
      else Classification(HarnessGap, 0.84)
    else if conformance.None? then Classification(HarnessGap, 0.65)
    else
      var status := Lower(Trim(conformance.value.status));
      if status == "pass" || status == "passed" then ClassifyPassing(repair, s, providerFailures)
      else if status == "skip" || status == "skipped" then Classification(HarnessGap, 0.9)
      else ClassifyFailing(Lower(Or(category, "unknown")), Lower(Or(reason, "unknown failure")))
  }

  function ClassifyItem(item: Candidate, ctx: Context): Assessment {
    var conformance := Lookup(ctx.conformance, item);
    var dossier, repair := Lookup(ctx.dossiers, item), Lookup(ctx.repairs, item);
    var providerFailures := |SortDedup(Or(FindIn(ctx.providers, [item.id] + item.aliases), []))|;
    var category := OrElse(if conformance.Some? then conformance.value.failureCategory else None,
                           if dossier.Some? then dossier.value.category else None);
    var reason := OrElse(if conformance.Some? then conformance.value.failureReason else None,
                         OrElse(if dossier.Some? then dossier.value.reason else None,
                                if repair.Some? then repair.value.error else None));
    var c :=
      if EqIgnoreCase(item.status, "unvendored") then ClassifyUnvendored(item)
      else ClassifyVendored(Lookup(ctx.manifest, item).Some?, conformance, repair,
                            Or(Lookup(ctx.scenarios, item), Scenarios(0, 0, 0)), providerFailures,
                            category, reason, item.notes);
    Assessment(item.id, c.verdict, c.confidence,
               c.confidence < ctx.reviewThreshold || c.verdict == NeedsReview || c.verdict == ProjectBug)
  }

  function Gate<T>(ok: bool, m: map<string, T>): map<string, T> { if ok then m else map[] }

  /** What `aggregate_report` lets the classifier see. */
  function GatedContext(args: Args, stages: seq<Stage>, a: Artifacts): Context {
    Context(
      a.manifest, Gate(ConformanceOk(args, stages), Fold(Flatten(Loaded(a.reports)))),
      Gate(args.aggregateOnly || StagePassed(stages, FailureDossiers), a.dossiers),
      Gate(args.aggregateOnly || StagePassed(stages, AutoRepairFullCorpus), a.repairs),
      Gate(args.aggregateOnly || StagePassed(stages, ScenarioSuite), a.scenarios),
      Gate(args.aggregateOnly || StagePassed(stages, ProviderCompatMatrix), a.providers),
      args.reviewThreshold)
  }

  predicate ById(a: Assessment, b: Assessment) { StrLe(a.id, b.id) }

  /** The assessments of `aggregate_report`. */
  function Assess(args: Args, stages: seq<Stage>, a: Artifacts, pool: seq<Candidate>): seq<Assessment> {
    SortBy(Map(pool, item => ClassifyItem(item, GatedContext(args, stages, a))), ById)
  }

  // ---- what a verdict proves ----

  /** The conformance gate of a completed run is open exactly when every shard's command succeeded. */
  lemma ConformanceGateIff(args: Args, succeeds: StageName -> bool)
    ensures ConformanceOk(args, CompletedStages(args, succeeds))
      <==> args.aggregateOnly || forall i :: 0 <= i < args.shards ==> succeeds(ConformanceShard(i))
  {
    forall i | 0 <= i < args.shards && !args.aggregateOnly
      ensures StagePassed(CompletedStages(args, succeeds), ConformanceShard(i)) <==> succeeds(ConformanceShard(i))
    {
      assert Plan(args)[i + 1] == ShardPlan(args.shards)[i];
      PlannedStagePassed(args, succeeds, i + 1);
    }
  }

  lemma {:induction false} FindInEmpty<T>(keys: seq<string>)
    ensures FindIn<T>(map[], keys) == None
  {
    if keys != [] { FindInEmpty<T>(keys[1..]); }
  }

  lemma {:induction false} FindInWhere<T>(m: map<string, T>, keys: seq<string>)
    ensures FindIn(m, keys).None? <==> forall k :: k in keys ==> k !in m
    ensures FindIn(m, keys).Some? ==> exists k :: k in keys && k in m && FindIn(m, keys).value == m[k]
  {
    if keys != [] {
      FindInWhere(m, keys[1..]);
      assert keys == [keys[0]] + keys[1..];
    }
  }

  /** Every assessment of the report is the classification of some candidate, and conversely. */
  lemma AssessedFrom(args: Args, stages: seq<Stage>, a: Artifacts, pool: seq<Candidate>, r: Assessment)
    ensures r in Assess(args, stages, a, pool)
      <==> exists i :: 0 <= i < |pool| && r == ClassifyItem(pool[i], GatedContext(args, stages, a))
  {
    hide ClassifyItem, GatedContext;
    var all := Map(pool, item => ClassifyItem(item, GatedContext(args, stages, a)));
    SortPermutes(all, ById);
    SameElements(SortBy(all, ById), all);
    if r in all {
      var i :| 0 <= i < |all| && all[i] == r;
      assert r == ClassifyItem(pool[i], GatedContext(args, stages, a));
    }
    if i :| 0 <= i < |pool| && r == ClassifyItem(pool[i], GatedContext(args, stages, a)) {
      assert all[i] == r;
    }
  }

  /** With the conformance map closed, only the three verdicts that claim nothing about
      behaviour remain, and which one is settled by status, manifest and notes. */
  lemma ClosedGateVerdict(item: Candidate, ctx: Context)
    requires ctx.conformance == map[]
    ensures var v, notes := ClassifyItem(item, ctx).verdict, Lower(Or(item.notes, ""));
      v == (if EqIgnoreCase(item.status, "unvendored") then
              (if ContainsAny(notes, UNVENDORED_MARKERS) then NotExtension else NotTestedUnvendored)
            else if Lookup(ctx.manifest, item).None? && ContainsAny(notes, NON_EXTENSION_MARKERS) then NotExtension
            else HarnessGap)
  {
    hide ContainsAny, Keys, SortDedup, ClassifyFailing, ClassifyPassing;
    FindInEmpty<ShardResult>(Keys(item));
  }

  /** A completed run in which some conformance shard did not succeed vouches for
      nothing: every verdict is HarnessGap, NotExtension or NotTestedUnvendored. */
  lemma FailedShardVouchesForNothing(
    args: Args, succeeds: StageName -> bool, a: Artifacts, pool: seq<Candidate>, shard: nat, r: Assessment)
    requires !args.aggregateOnly && shard < args.shards && !succeeds(ConformanceShard(shard))
    requires r in Assess(args, CompletedStages(args, succeeds), a, pool)
    ensures r.verdict in {HarnessGap, NotExtension, NotTestedUnvendored}
  {
    hide ClassifyItem, CompletedStages, Plan;
    var stages := CompletedStages(args, succeeds);
    AssessedFrom(args, stages, a, pool, r);
    ConformanceGateIff(args, succeeds);
    var i :| 0 <= i < |pool| && r == ClassifyItem(pool[i], GatedContext(args, stages, a));
    ClosedGateVerdict(pool[i], GatedContext(args, stages, a));
  }

  /** What a Pass rests on: the candidate is vendored and in the manifest, its kept
      conformance result passes, and nothing visible speaks against it. */
  lemma PassIff(item: Candidate, ctx: Context)
    ensures ClassifyItem(item, ctx).verdict == Verdict.Pass <==>
      && !EqIgnoreCase(item.status, "unvendored") && Lookup(ctx.manifest, item).Some?
      && Lookup(ctx.conformance, item).Some? && Tally(Lookup(ctx.conformance, item).value.status) == Outcome.Pass
      && (var s := Or(Lookup(ctx.scenarios, item), Scenarios(0, 0, 0)); s.fail == 0 && s.error == 0)
      && Or(FindIn(ctx.providers, [item.id] + item.aliases), []) == []
      && (var repair := Lookup(ctx.repairs, item);
          repair.Some? ==>
            if repair.value.loaded then repair.value.events == 0
            else
              || StartsWith(Lower(Or(repair.value.error, "")), "artifact not found")
              || Lower(Or(repair.value.error, "")) == "")
  {
    hide Lower, Trim, ContainsAny, Keys, StartsWith, FindIn, SortDedup;
    EmptySortDedup(Or(FindIn(ctx.providers, [item.id] + item.aliases), []));
    FailingNeverPasses();
  }

  lemma EmptySortDedup(s: seq<string>)
    ensures |SortDedup(s)| == 0 <==> s == []
  {
    SortDedupSpec(s);
    if s != [] { assert s[0] in SortDedup(s); }
    if SortDedup(s) != [] { assert SortDedup(s)[0] in s; }
  }

  lemma FailingNeverPasses()
    ensures forall c, r :: ClassifyFailing(c, r).verdict != Verdict.Pass
  {
  }

  /** From a Pass back to the shards: every shard command succeeded, and the shard
      result the verdict rests on belongs to an id for which no shard reported a failure. */
  lemma PassReachesBackToShards(args: Args, succeeds: StageName -> bool, a: Artifacts, item: Candidate)
    returns (key: string)
    requires ClassifyItem(item, GatedContext(args, CompletedStages(args, succeeds), a)).verdict == Verdict.Pass
    ensures args.aggregateOnly || forall i :: 0 <= i < args.shards ==> succeeds(ConformanceShard(i))
    ensures key in Keys(item) && key in Fold(Flatten(Loaded(a.reports)))
    ensures Lookup(GatedContext(args, CompletedStages(args, succeeds), a).conformance, item)
         == Some(Fold(Flatten(Loaded(a.reports)))[key])
    ensures !Reports(Flatten(Loaded(a.reports)), key, 0)
  {
    hide ClassifyItem, CompletedStages, Keys, Tally, StatusRank;
    var stages := CompletedStages(args, succeeds);
    var ctx := GatedContext(args, stages, a);
    PassIff(item, ctx);
    ConformanceGateIff(args, succeeds);
    FindInWhere(ctx.conformance, Keys(item));
    if !ConformanceOk(args, stages) { FindInEmpty<ShardResult>(Keys(item)); }
    key :| key in Keys(item) && key in ctx.conformance && Lookup(ctx.conformance, item).value == ctx.conformance[key];
    var results := Flatten(Loaded(a.reports));
    FoldKeepsPreferred(results, key);
    var k: nat :| KeptAt(results, key, k);
    CountedFailedIff(results, k);
  }

  /** Nor does a Pass overlook a provider: when the provider stage's lists are read, no
      provider-specific failure is expected under the candidate's id or any alias. */
  lemma PassHasNoProviderFailure(args: Args, stages: seq<Stage>, a: Artifacts, item: Candidate,
                                 failures: seq<Failure>, lines: seq<Line>, key: string)
    requires args.aggregateOnly || StagePassed(stages, ProviderCompatMatrix)
    requires Lists(failures, lines, a.providers)
    requires ClassifyItem(item, GatedContext(args, stages, a)).verdict == Verdict.Pass
    requires key == item.id || key in item.aliases
    ensures Expected(failures, lines, key) == {}
  {
    hide ClassifyItem, Expected, StrictlyAscending;
    var ctx := GatedContext(args, stages, a);
    assert ctx.providers == a.providers;
    PassIff(item, ctx);
    var keys := [item.id] + item.aliases;
    FindInWhere(a.providers, keys);
    forall k | k in a.providers ensures a.providers[k] != [] {
      assert Elements(a.providers[k]) == Expected(failures, lines, k);
    }
    assert key in keys;
  }

  /** A fail-fast run that completes has no failed stage, so it reads every artifact. */
  lemma FailFastReadsEverything(args: Args, succeeds: StageName -> bool, a: Artifacts)
    requires args.failFast && !exists i :: 0 <= i < |Plan(args)| && !succeeds(Plan(args)[i])
    ensures forall i :: 0 <= i < |CompletedStages(args, succeeds)| ==>
      CompletedStages(args, succeeds)[i].status != Failed
    ensures GatedContext(args, CompletedStages(args, succeeds), a)
         == Context(a.manifest, Fold(Flatten(Loaded(a.reports))), a.dossiers, a.repairs, a.scenarios,
                    a.providers, args.reviewThreshold)
  {
    var n := args.shards;
    assert Plan(args)[n + 1] == FailureDossiers && Plan(args)[n + 2] == ProviderCompatMatrix
        && Plan(args)[n + 3] == ScenarioSuite && Plan(args)[n + 4] == AutoRepairFullCorpus;
    forall k | 0 <= k < |Plan(args)| && !args.aggregateOnly
      ensures StagePassed(CompletedStages(args, succeeds), Plan(args)[k])
    {
      PlannedStagePassed(args, succeeds, k);
    }
    forall i | 0 <= i < n ensures succeeds(ConformanceShard(i)) {
      assert Plan(args)[i + 1] == ShardPlan(n)[i];
    }
    ConformanceGateIff(args, succeeds);
  }
}
