/** What the evidence rules mean for a record: which records are read and how much time they
    stand for, what makes one eligible, spelled out without the parser's or the validator's
    predicates, and what each confidence cap says about the rows. */
module EvidenceReading {
  import opened Integers
  import opened Attribution
  import opened Evidence
  import opened Provenance
  import opened Sequences
  import opened Text
  import opened Wrappers

  // ---- hashes and feature lists ----

  function Pow16(n: nat): nat { if n == 0 then 1 else 16 * Pow16(n - 1) }

  function HexChar(d: nat): char
    requires d < 16
  {
    "0123456789abcdef"[d]
  }

  /** `v` in `n` lower-case hexadecimal digits. */
  function Hex(v: nat, n: nat): string {
    if n == 0 then "" else Hex(v / 16, n - 1) + [HexChar(v % 16)]
  }

  predicate HexDigit(c: char) { '0' <= c <= '9' || 'a' <= c <= 'f' }

  lemma {:induction false} HexRead(s: string) returns (v: nat)
    requires forall i :: 0 <= i < |s| ==> HexDigit(s[i])
    ensures v < Pow16(|s|) && s == Hex(v, |s|)
  {
    if s == "" {
      v := 0;
    } else {
      var n := |s| - 1;
      var high := HexRead(s[..n]);
      var d := DigitOf(s[n]);
      v := 16 * high + d;
      assert v / 16 == high && v % 16 == d;
      assert s == s[..n] + [s[n]];
    }
  }

  lemma DigitOf(c: char) returns (d: nat)
    requires HexDigit(c)
    ensures d < 16 && HexChar(d) == c
  {
    d := if c <= '9' then c as int - '0' as int else c as int - 'a' as int + 10;
  }

  lemma {:induction false} HexWritten(v: nat, n: nat)
    ensures |Hex(v, n)| == n && forall i :: 0 <= i < n ==> HexDigit(Hex(v, n)[i])
    ensures v < Pow16(n) ==> ((forall i :: 0 <= i < n ==> Hex(v, n)[i] == '0') <==> v == 0)
  {
    if n > 0 {
      HexWritten(v / 16, n - 1);
      var high := Hex(v / 16, n - 1);
      assert Hex(v, n)[n - 1] == HexChar(v % 16) && forall i :: 0 <= i < n - 1 ==> Hex(v, n)[i] == high[i];
      assert HexChar(v % 16) == '0' <==> v % 16 == 0;
    }
  }

  /** Some number other than zero, written in `n` digits. */
  ghost predicate IsHash(s: string, n: nat) { exists v: nat :: 0 < v < Pow16(n) && s == Hex(v, n) }

  lemma HashIff(s: string, n: nat)
    ensures LowerHex(s, n) <==> IsHash(s, n)
  {
    hide Pow16, Hex;
    if LowerHex(s, n) {
      var v := HexRead(s);
      HexWritten(v, n);
    }
    forall v: nat | 0 < v < Pow16(n) && s == Hex(v, n)
      ensures LowerHex(s, n)
    {
      HexWritten(v, n);
    }
  }

  lemma {:induction false} AscendsFrom(f: seq<string>, i: nat, j: nat)
    requires FeaturesAscend(f) && i < j < |f|
    ensures StrLt(f[i], f[j])
    decreases j
  {
    hide StrLe;
    assert StrLt(f[j - 1], f[j]);
    if i < j - 1 {
      AscendsFrom(f, i, j - 1);
      StrLeTransitive(f[i], f[j - 1], f[j]);
      if f[i] == f[j] { StrLeAntisymmetric(f[j - 1], f[j]); }
    }
  }

  /** Features ascend exactly if sorting and deduplicating them changes nothing. */
  lemma FeaturesAscendIff(f: seq<string>)
    ensures FeaturesAscend(f) <==> SortDedup(f) == f
  {
    hide StrLe, SortDedup;
    SortDedupSpec(f);
    if FeaturesAscend(f) {
      forall i, j | 0 <= i < j < |f| ensures StrLt(f[i], f[j]) { AscendsFrom(f, i, j); }
      AscendingUnique(SortDedup(f), f);
    }
  }

  // ---- eligibility ----

  /** The row stands for a clean, verified, optimised build. */
  ghost predicate CleanBuild(perf: PerfBuild, f: BuildFacts) {
    && IsHash(f.sourceCommit, 40) && !f.sourceDirty && IsHash(f.binarySha256, 64) && !f.debugAssertions
    && f.buildProfile == "perf" && f.executableBuildProfile == "perf"
    && perf.profileFromTargetPath(f.binaryPath) == Some("perf")
    && f.verification == Verification(true, true, true) && f.fingerprintContract == "cargo_build_fingerprint.v1"
    && f.profileFamily == "release" && f.optLevel == "3" && f.debug == "true"
    && f.features != [] && SortDedup(f.features) == f.features
  }

  /** The row stands for a measurement of the production path. */
  ghost predicate ProductionMeasurement(r: Row) {
    && r.evidenceClass == "measured" && r.sourceConfidence == "high" && r.method_ == "wall_clock_observation"
    && r.boundary == "production_extension_manager" && r.contractVersion == "production_extension_manager.v1"
    && r.diskCachePolicy == "disabled" && r.hostPageCachePolicy == "not_applicable_measured_region"
  }

  /** Every provenance field is stated twice, alike. */
  ghost predicate StatedTwice(record: Json) {
    forall k :: k in {SourceCommit, SourceDirty, BuildProfile, ExecutableBuildProfile, ExecutableProfileVerified,
                      BuildFingerprintVerified, BuildProfileVerified, BuildFingerprintContract, CompiledProfileFamily,
                      CompiledOptLevel, CompiledDebug, CompiledFeatures, BinaryPath, BinarySha256, DebugAssertions,
                      ConfigHash} ==>
      Get(record, k).Some? && Get(record, Env).Some? && Get(Get(record, Env).value, k) == Get(record, k)
  }

  /** A record counts as evidence for the gate exactly if it says so, has samples, measures
      the production path on a clean build, hashes that build, and states its provenance
      twice. */
  lemma EligibleIff(perf: PerfBuild, record: Json)
    requires Parse(perf, record).Some?
    ensures var row := Parse(perf, record).value;
      row.effective <==>
        && row.declared && row.samples > 0 && ProductionMeasurement(row) && CleanBuild(perf, row.facts)
        && row.configHash == perf.configHash(row.facts) && StatedTwice(record)
  {
    hide Parse, LowerHex, FeaturesAscend, SortDedup, IsHash;
    var row := Parse(perf, record).value;
    EligibleIffContract(perf, record);
    HashIff(row.facts.sourceCommit, 40);
    HashIff(row.facts.binarySha256, 64);
    FeaturesAscendIff(row.facts.features);
    StatedTwiceIff(record);
  }

  lemma StatedTwiceIff(record: Json)
    ensures DuplicatesMatch(record) <==> StatedTwice(record)
  {
    if StatedTwice(record) {
      assert Get(record, SourceCommit).Some? && Get(Get(record, Env).value, SourceCommit) == Get(record, SourceCommit);
    }
  }

  // ---- which records are read, and what time they stand for ----

  /** A record is read exactly if it has the schema, names its scenario and took time. */
  lemma ReadIff(perf: PerfBuild, record: Json)
    ensures Parse(perf, record).Some? <==>
      && Get(record, Schema) == Some(Str("pi.ext.rust_bench.v1"))
      && (exists scenario :: Get(record, Scenario) == Some(Str(scenario)))
      && TotalUs(record) > 0.0
    ensures Parse(perf, record).Some? ==>
      Get(record, Scenario) == Some(Str(Parse(perf, record).value.scenario))
  {
    hide GateEligible, ReportedFacts, TotalUs, WeightsFor;
    assert Get(record, Scenario).Some? && Get(record, Scenario).value.Str? ==>
      Get(record, Scenario) == Some(Str(Get(record, Scenario).value.s));
  }

  /** Time per call, times the calls, is the time. */
  lemma PerCallTimesSamples(perf: PerfBuild, record: Json)
    requires Parse(perf, record).Some? && Parse(perf, record).value.samples > 0
    ensures var row := Parse(perf, record).value; row.perCallUs * row.samples as real == row.totalUs
  {
    hide GateEligible, ReportedFacts, WeightsFor;
  }

  /** The units: calls in microseconds, the summary's 95th percentile and the elapsed time
      in milliseconds. A number of runs, or of samples, stands in for iterations. */
  lemma TimesRead(n: nat, x: real)
    requires 0 < n <= U64_MAX
    ensures TotalUs(Obj(map[Iterations := Int(n), PerCallUs := Float(x)])) == x * n as real
    ensures TotalUs(Obj(map[Runs := Int(n), PerCallUs := Float(x)])) == x * n as real
    ensures TotalUs(Obj(map[Runs := Int(n), Summary := Obj(map[SampleCount := Int(n), P95Ms := Float(x)])]))
         == 1000.0 * x * n as real
    ensures TotalUs(Obj(map[Summary := Obj(map[SampleCount := Int(n), P95Ms := Float(x)])])) == 1000.0 * x * n as real
    ensures TotalUs(Obj(map[ElapsedMs := Float(x)])) == 1000.0 * x
  {
  }

  /** Of two statements the more direct is believed: iterations before runs before samples,
      the time per call before the percentile, and both before the elapsed time; the
      record's own metadata before those of its environment. */
  lemma DirectFirst(fields: map<Key, Json>, n: nat, x: real, k: Key, v: Json)
    requires n <= U64_MAX
    ensures Iterations in fields && fields[Iterations] == Int(n) ==> Samples(Obj(fields)) == n
    ensures Iterations !in fields && Runs in fields && fields[Runs] == Int(n) ==> Samples(Obj(fields)) == n
    ensures PerCallUs in fields && fields[PerCallUs] == Float(x) ==> PerCall(Obj(fields)) == Some(x)
    ensures PerCall(Obj(fields)).Some? && Samples(Obj(fields)) > 0 ==>
      TotalUs(Obj(fields)) == PerCall(Obj(fields)).value * Samples(Obj(fields)) as real
    ensures k in fields ==> Metadata(Obj(fields), k) == Some(fields[k])
    ensures k !in fields && Env in fields && fields[Env].Obj? && k in fields[Env].fields ==>
      Metadata(Obj(fields), k) == Some(fields[Env].fields[k])
  {
  }

  // ---- the caps ----

  /** What each cap says: all rows count, some do, or none does. */
  lemma CapLevels(rows: seq<Row>, s: Summary)
    requires Built(rows, s)
    ensures s.cap == 0.80 <==> rows != [] && forall i :: 0 <= i < |rows| ==> rows[i].effective
    ensures s.cap == 0.50 <==>
      (exists i :: 0 <= i < |rows| && rows[i].effective) && exists i :: 0 <= i < |rows| && !rows[i].effective
    ensures s.cap == 0.35 <==> forall i :: 0 <= i < |rows| ==> !rows[i].effective
    ensures s.confidence <= s.cap && s.confidence <= s.sampleConfidence
  {
    hide Count;
    CountFull(rows, Effective);
    CountNone(rows, Effective);
    assert forall i :: 0 <= i < |rows| ==> Effective(rows[i]) == rows[i].effective;
  }

  /** The summary's numbers fit each other: confidences in range, the stated one the smaller
      of sample confidence and cap, up to the tolerance. */
  ghost predicate NumbersFit(s: Summary) {
    && 0.0 <= s.sampleConfidence <= 1.0 && 0.0 <= s.confidence <= s.cap <= 1.0
    && Near(s.confidence, if s.sampleConfidence < s.cap then s.sampleConfidence else s.cap)
  }

  ghost predicate Near(a: real, b: real) { (a - b) * 4503599627370496.0 <= 1.0 && (b - a) * 4503599627370496.0 <= 1.0 }

  /** The cap the summary's own counts allow. */
  ghost predicate CapAllowed(s: Summary) {
    Near(s.cap, if s.effective == 0 then 0.35 else if s.effective == s.source then 0.80 else 0.50)
  }

  ghost predicate CountsSomethingUnsafe(s: Summary) {
    s.dirty > 0 || s.debug > 0 || s.unverifiedProfile > 0 || s.uncontrolled > 0
  }

  ghost predicate RowsHold(perf: PerfBuild, rows: seq<Row>) {
    forall k :: 0 <= k < |rows| ==>
      && SortDedup(rows[k].facts.features) == rows[k].facts.features
      && (rows[k].effective ==> ExactContract(perf, rows[k]))
  }

  /** What each objection of the validator means, in the order it looks, and exactly what it
      accepts. */
  lemma ObjectionsMean(perf: PerfBuild, rows: seq<Row>, s: Summary)
    ensures var bad := Validate(perf, rows, s);
      var unsafe := s.cap > 0.50 && CountsSomethingUnsafe(s);
      var sound := NumbersFit(s) && CapAllowed(s) && !unsafe;
      && (bad == Some(BadConfidence) <==> !NumbersFit(s))
      && (bad == Some(WrongCap) <==> NumbersFit(s) && !CapAllowed(s))
      && (bad == Some(UnsafeCap) <==> NumbersFit(s) && CapAllowed(s) && unsafe)
      && (bad.Some? && (bad.value.UnsortedFeatures? || bad.value.NotExact?) <==> sound && !RowsHold(perf, rows))
      && (bad == Some(CountMismatch) <==> sound && RowsHold(perf, rows) && !CountsMatch(rows, s))
      && (bad == Some(SampleMismatch) <==>
          sound && RowsHold(perf, rows) && CountsMatch(rows, s) && !SamplesMatch(rows, s))
      && (bad == None <==> sound && RowsHold(perf, rows) && CountsMatch(rows, s) && SamplesMatch(rows, s))
  {
    hide CheckRows, CountsMatch, SamplesMatch, SortDedup, ExactContract, FeaturesAscend, NumbersFit, CapAllowed;
    hide ConfidenceOk, RowsHold;
    NumbersChecked(s);
    RowsChecked(perf, rows);
  }

  lemma NumbersChecked(s: Summary)
    ensures ConfidenceOk(s) <==> NumbersFit(s)
    ensures Within(s.cap, ExpectedCap(s.source, s.effective)) <==> CapAllowed(s)
    ensures UnsafeRecords(s) > 0 <==> CountsSomethingUnsafe(s)
  {
  }

  lemma RowsChecked(perf: PerfBuild, rows: seq<Row>)
    ensures var bad := CheckRows(perf, rows, 0);
      (bad.None? <==> RowsHold(perf, rows)) && (bad.Some? ==> bad.value.UnsortedFeatures? || bad.value.NotExact?)
  {
    hide CheckRows, SortDedup, ExactContract, FeaturesAscend;
    CheckRowsFinds(perf, rows, 0);
    forall k | 0 <= k < |rows|
      ensures FeaturesAscend(rows[k].facts.features) <==> SortDedup(rows[k].facts.features) == rows[k].facts.features
    {
      FeaturesAscendIff(rows[k].facts.features);
    }
  }
}
