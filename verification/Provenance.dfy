/** Evidence provenance of the hotspot matrix: `parse_profile_record` decides which
    bench records are eligible for the regression gate, `build_hotspot_matrix`
    counts them and caps the confidence, and `validate_hotspot_matrix_schema`
    recounts the rows and re-checks every eligible row against a contract written
    separately. Numbers are idealised: `f64` is `real`. */
module Provenance {
  import opened Integers
  import opened Attribution
  import opened Text
  import opened Wrappers

  // ---- the JSON a record is read from ----

  /** The object keys the parser looks at. */
  datatype Key =
    | Schema | Scenario | Extension | Iterations | Runs | Summary | SampleCount | PerCallUs | P95Ms | ElapsedMs
    | EvidenceClass | Confidence | EligibleForGate
    | MeasurementMethod | MeasurementBoundary | MeasurementContractVersion
    | DiskCachePolicy | HostPageCachePolicy | Env
    | SourceCommit | SourceDirty | BuildProfile | ExecutableBuildProfile
    | ExecutableProfileVerified | BuildFingerprintVerified | BuildProfileVerified
    | BuildFingerprintContract | CompiledProfileFamily | CompiledOptLevel | CompiledDebug | CompiledFeatures
    | BinaryPath | BinarySha256 | DebugAssertions | ConfigHash

  datatype Json =
    | Null | Bool(b: bool) | Int(n: int) | Float(x: real) | Str(s: string)
    | Arr(items: seq<Json>) | Obj(fields: map<Key, Json>)

  function Get(v: Json, k: Key): Option<Json> {
    if v.Obj? && k in v.fields then Some(v.fields[k]) else None
  }

  function AsStr(v: Option<Json>, default: string): string {
    if v.Some? && v.value.Str? then v.value.s else default
  }

  function AsBool(v: Option<Json>, default: bool): bool {
    if v.Some? && v.value.Bool? then v.value.b else default
  }

  function AsU64(v: Option<Json>): Option<nat> {
    if v.Some? && v.value.Int? && 0 <= v.value.n <= U64_MAX then Some(v.value.n) else None
  }

  function AsF64(v: Option<Json>): Option<real> {
    if v.Some? && v.value.Float? then Some(v.value.x)
    else if v.Some? && v.value.Int? then Some(v.value.n as real)
    else None
  }

  function OrElse<T>(a: Option<T>, b: Option<T>): Option<T> {
    if a.Some? then a else b
  }

  /** All strings, or nothing. */
  function AsStrings(items: seq<Json>): Option<seq<string>> {
    if items == [] then Some([])
    else
      var rest := AsStrings(items[1..]);
      if items[0].Str? && rest.Some? then Some([items[0].s] + rest.value) else None
  }

  /** `record_metadata_value`: the record's own field, else the one in `env`. */
  function Metadata(record: Json, k: Key): Option<Json> {
    var env := Get(record, Env);
    OrElse(Get(record, k), if env.Some? then Get(env.value, k) else None)
  }

  const BUILD_PROVENANCE_FIELDS: set<Key> := {
    SourceCommit, SourceDirty, BuildProfile, ExecutableBuildProfile, ExecutableProfileVerified,
    BuildFingerprintVerified, BuildProfileVerified, BuildFingerprintContract, CompiledProfileFamily,
    CompiledOptLevel, CompiledDebug, CompiledFeatures, BinaryPath, BinarySha256, DebugAssertions, ConfigHash }

  /** `record_provenance_duplicates_match` */
  predicate DuplicatesMatch(record: Json) {
    var env := Get(record, Env);
    env.Some? && env.value.Obj?
    && forall k :: k in BUILD_PROVENANCE_FIELDS ==> Get(record, k).Some? && Get(env.value, k) == Get(record, k)
  }

  // ---- what the build library provides ----

  datatype Verification = Verification(executableProfile: bool, buildFingerprint: bool, buildProfile: bool)

  /** The inputs of the configuration hash. */
  datatype BuildFacts = BuildFacts(
    sourceCommit: string, sourceDirty: bool, buildProfile: string, executableBuildProfile: string,
    verification: Verification, fingerprintContract: string,
    profileFamily: string, optLevel: string, debug: string, features: seq<string>,
    binaryPath: string, binarySha256: string, debugAssertions: bool)

  /** The path inspection and the hash are left uninterpreted. */
  datatype PerfBuild = PerfBuild(profileFromTargetPath: string -> Option<string>, configHash: BuildFacts -> string)

  const BUILD_FINGERPRINT_CONTRACT := "cargo_build_fingerprint.v1"
  const BENCH_SCHEMA := "pi.ext.rust_bench.v1"
  const MEASUREMENT_BOUNDARY := "production_extension_manager"
  const MEASUREMENT_CONTRACT_VERSION := "production_extension_manager.v1"

  predicate CanonicalFingerprint(family: string, optLevel: string, debug: string) {
    family == "release" && optLevel == "3" && debug == "true"
  }

  /** `is_lower_hex_sha256` and `is_full_git_sha`: lower-case hex, not all zeros. */
  predicate LowerHex(s: string, length: nat) {
    && |s| == length
    && (forall i :: 0 <= i < |s| ==> '0' <= s[i] <= '9' || 'a' <= s[i] <= 'f')
    && exists i :: 0 <= i < |s| && s[i] != '0'
  }

  /** `windows(2).all(|pair| pair[0] < pair[1])` */
  predicate FeaturesAscend(f: seq<string>) {
    forall i :: 0 <= i < |f| - 1 ==> StrLt(f[i], f[i + 1])
  }

  // ---- the parser ----

  /** One parsed record, and equally one row of `scenario_breakdown`. */
  datatype Row = Row(
    scenario: string, extension: string, samples: nat, totalUs: real, perCallUs: real, weights: StageVector,
    evidenceClass: string, sourceConfidence: string, declared: bool, effective: bool,
    method_: string, boundary: string, contractVersion: string,
    facts: BuildFacts, configHash: string, diskCachePolicy: string, hostPageCachePolicy: string)

  function Samples(record: Json): nat {
    var summary := Get(record, Summary);
    var n := OrElse(AsU64(Get(record, Iterations)),
                    OrElse(AsU64(Get(record, Runs)),
                           if summary.Some? then AsU64(Get(summary.value, SampleCount)) else None));
    if n.Some? then n.value else 0
  }

  function PerCall(record: Json): Option<real> {
    var summary := Get(record, Summary);
    var p95 := if summary.Some? then AsF64(Get(summary.value, P95Ms)) else None;
    OrElse(AsF64(Get(record, PerCallUs)), if p95.Some? then Some(p95.value * 1000.0) else None)
  }

  function TotalUs(record: Json): real {
    if PerCall(record).Some? && Samples(record) > 0 then PerCall(record).value * Samples(record) as real
    else
      var elapsed := AsF64(Get(record, ElapsedMs));
      if elapsed.Some? then elapsed.value * 1000.0 else 0.0
  }

  function Reported(record: Json): Verification {
    Verification(AsBool(Metadata(record, ExecutableProfileVerified), false),
                 AsBool(Metadata(record, BuildFingerprintVerified), false),
                 AsBool(Metadata(record, BuildProfileVerified), false))
  }

  function Features(record: Json): seq<string> {
    var v := Metadata(record, CompiledFeatures);
    var strings := if v.Some? && v.value.Arr? then AsStrings(v.value.items) else None;
    if strings.Some? then strings.value else []
  }

  /** The record's claims, with the verification flags as reported. */
  function ReportedFacts(record: Json): BuildFacts {
    BuildFacts(
      AsStr(Metadata(record, SourceCommit), "unknown"), AsBool(Metadata(record, SourceDirty), true),
      AsStr(Metadata(record, BuildProfile), "unknown"), AsStr(Metadata(record, ExecutableBuildProfile), "unknown"),
      Reported(record), AsStr(Metadata(record, BuildFingerprintContract), "unknown"),
      AsStr(Metadata(record, CompiledProfileFamily), "unknown"), AsStr(Metadata(record, CompiledOptLevel), "unknown"),
      AsStr(Metadata(record, CompiledDebug), "unknown"), Features(record),
      AsStr(Metadata(record, BinaryPath), "unknown"), AsStr(Metadata(record, BinarySha256), "unknown"),
      AsBool(Metadata(record, DebugAssertions), true))
  }

  /** A flag survives only if the facts bear it out. */
  function EffectiveFlags(perf: PerfBuild, f: BuildFacts): Verification {
    var executable := f.verification.executableProfile
                      && f.executableBuildProfile == "perf" && perf.profileFromTargetPath(f.binaryPath) == Some("perf");
    var fingerprint := f.verification.buildFingerprint
                       && f.fingerprintContract == BUILD_FINGERPRINT_CONTRACT
                       && CanonicalFingerprint(f.profileFamily, f.optLevel, f.debug);
    Verification(executable, fingerprint, f.verification.buildProfile && executable && fingerprint)
  }

  /** The parser's eligibility test; the hash is taken over the reported flags. */
  predicate GateEligible(perf: PerfBuild, record: Json, row: Row) {
    var reported := ReportedFacts(record);
    var flags := EffectiveFlags(perf, reported);
    && row.declared && row.samples > 0
    && row.evidenceClass == "measured" && row.sourceConfidence == "high"
    && row.method_ == "wall_clock_observation" && row.boundary == MEASUREMENT_BOUNDARY
    && row.contractVersion == MEASUREMENT_CONTRACT_VERSION
    && reported.buildProfile == "perf"
    && flags.executableProfile && flags.buildFingerprint && flags.buildProfile
    && LowerHex(reported.sourceCommit, 40) && !reported.sourceDirty
    && reported.features != [] && FeaturesAscend(reported.features)
    && row.configHash == perf.configHash(reported)
    && DuplicatesMatch(record)
    && !reported.debugAssertions
    && LowerHex(reported.binarySha256, 64)
    && row.diskCachePolicy == "disabled" && row.hostPageCachePolicy == "not_applicable_measured_region"
  }

  function Parse(perf: PerfBuild, record: Json): Option<Row> {
    var scenario := Get(record, Scenario);
    if AsStr(Get(record, Schema), "") != BENCH_SCHEMA || !(scenario.Some? && scenario.value.Str?)
       || TotalUs(record) <= 0.0
    then None
    else
      var weights := WeightsFor(scenario.value.s);
      var reported := ReportedFacts(record);
      var samples := Samples(record);
      var row := Row(
        scenario.value.s, AsStr(Get(record, Extension), "unknown"), samples, TotalUs(record),
        (if PerCall(record).Some? then PerCall(record).value
         else TotalUs(record) / (if samples > 1 then samples else 1) as real),
        weights,
        AsStr(Get(record, EvidenceClass), "unknown"), AsStr(Get(record, Confidence), "unknown"),
        AsBool(Get(record, EligibleForGate), false), false,
        AsStr(Get(record, MeasurementMethod), "unknown"), AsStr(Get(record, MeasurementBoundary), "unknown"),
        AsStr(Get(record, MeasurementContractVersion), "unknown"),
        reported.(verification := EffectiveFlags(perf, reported)),
        AsStr(Metadata(record, ConfigHash), "unknown"),
        AsStr(Get(record, DiskCachePolicy), "unknown"), AsStr(Get(record, HostPageCachePolicy), "unknown"));
      Some(row.(effective := GateEligible(perf, record, row)))
  }

  /** `filter_map(parse_profile_record)` */
  function ParseAll(perf: PerfBuild, records: seq<Json>): seq<Row> {
    if records == [] then []
    else
      var first := Parse(perf, records[0]);
      (if first.Some? then [first.value] else []) + ParseAll(perf, records[1..])
  }

  // ---- the validator's contract ----

  /** `exact_eligible_contract`, read off the row alone: the hash is recomputed from
      the row's effective flags. */
  predicate ExactContract(perf: PerfBuild, r: Row) {
    && r.declared
    && r.evidenceClass == "measured" && r.sourceConfidence == "high"
    && r.method_ == "wall_clock_observation" && r.boundary == MEASUREMENT_BOUNDARY
    && r.contractVersion == MEASUREMENT_CONTRACT_VERSION
    && r.facts.buildProfile == "perf" && r.facts.executableBuildProfile == "perf"
    && perf.profileFromTargetPath(r.facts.binaryPath) == Some("perf")
    && r.facts.verification.executableProfile && r.facts.verification.buildFingerprint
    && r.facts.verification.buildProfile
    && r.facts.fingerprintContract == BUILD_FINGERPRINT_CONTRACT
    && CanonicalFingerprint(r.facts.profileFamily, r.facts.optLevel, r.facts.debug)
    && r.facts.features != [] && FeaturesAscend(r.facts.features)
    && !r.facts.debugAssertions
    && LowerHex(r.facts.sourceCommit, 40) && !r.facts.sourceDirty
    && r.configHash == perf.configHash(r.facts)
    && r.diskCachePolicy == "disabled" && r.hostPageCachePolicy == "not_applicable_measured_region"
    && LowerHex(r.facts.binarySha256, 64)
  }

  /** The two separately written tests agree: the parser marks a record eligible
      exactly when the row it emits meets the validator's contract, the record has
      samples, and its provenance is duplicated faithfully under `env`. */
  lemma EligibleIffContract(perf: PerfBuild, record: Json)
    requires Parse(perf, record).Some?
    ensures var row := Parse(perf, record).value;
            row.effective <==> ExactContract(perf, row) && row.samples > 0 && DuplicatesMatch(record)
  {
    var row := Parse(perf, record).value;
    var reported := ReportedFacts(record);
    if ExactContract(perf, row) || row.effective {
      assert reported.verification == Verification(true, true, true) == row.facts.verification;
      assert row.facts == reported;
    }
  }
}
