/** The evidence summary of the hotspot matrix: `build_hotspot_matrix` counts the parsed
    rows and caps the confidence, `validate_hotspot_matrix_schema` recounts them and
    re-checks every row. `ln_1p` is left uninterpreted. */
module Evidence {
  import opened Integers
  import Attribution
  import opened Provenance
  import opened Reals
  import opened Sequences
  import opened Text
  import opened Wrappers

  /** `evidence_provenance`, numbers only. */
  datatype Summary = EvidenceSummary(
    source: nat, declared: nat, effective: nat, ineligible: nat,
    totalSamples: nat, eligibleSamples: nat,
    sampleConfidence: real, cap: real, confidence: real,
    dirty: nat, debug: nat, unverifiedExecutable: nat, unverifiedFingerprint: nat,
    unverifiedProfile: nat, uncontrolled: nat)

  // The row classes both sides count.
  predicate Declared(r: Row) { r.declared }
  predicate Effective(r: Row) { r.effective }
  predicate Ineligible(r: Row) { !r.effective }
  predicate Dirty(r: Row) { r.facts.sourceDirty }
  predicate Debug(r: Row) { r.facts.debugAssertions }
  predicate UnverifiedExecutable(r: Row) { !r.facts.verification.executableProfile }
  predicate UnverifiedFingerprint(r: Row) { !r.facts.verification.buildFingerprint }
  predicate UnverifiedProfile(r: Row) { !r.facts.verification.buildProfile }
  predicate Uncontrolled(r: Row) { r.hostPageCachePolicy == "uncontrolled" }

  // ---- the validator ----

  function EffectiveRows(rows: seq<Row>): seq<Row> {
    if rows == [] then []
    else EffectiveRows(rows[..|rows| - 1]) + if rows[|rows| - 1].effective then [rows[|rows| - 1]] else []
  }

  /** `fold(0, saturating_add)` over the rows' samples. */
  function SampleFold(rows: seq<Row>): nat {
    if rows == [] then 0 else SaturatingAdd(SampleFold(rows[..|rows| - 1]), rows[|rows| - 1].samples)
  }

  function ExpectedCap(source: nat, effective: nat): real {
    if source > 0 && effective == source then 0.80 else if effective > 0 then 0.50 else 0.35
  }

  datatype Rejection =
    | BadConfidence | WrongCap | UnsafeCap
    | UnsortedFeatures(row: nat) | NotExact(row: nat)
    | CountMismatch | SampleMismatch

  const EPSILON: real := 1.0 / 4503599627370496.0

  predicate Within(a: real, b: real) { -EPSILON <= a - b <= EPSILON }

  predicate ConfidenceOk(s: Summary) {
    && 0.0 <= s.sampleConfidence <= 1.0 && 0.0 <= s.cap <= 1.0 && 0.0 <= s.confidence <= s.cap
    && Within(s.confidence, Min(s.sampleConfidence, s.cap))
  }

  function UnsafeRecords(s: Summary): nat {
    SaturatingAdd(SaturatingAdd(SaturatingAdd(SaturatingAdd(0, s.dirty), s.debug), s.unverifiedProfile), s.uncontrolled)
  }

  /** The row loop, from row `i` on: every row's features must ascend, and an
      effective row must meet the exact contract. */
  function CheckRows(perf: PerfBuild, rows: seq<Row>, i: nat): (r: Option<Rejection>)
    requires i <= |rows|
    decreases |rows| - i
  {
    if i == |rows| then None
    else if !FeaturesAscend(rows[i].facts.features) then Some(UnsortedFeatures(i))
    else if rows[i].effective && !ExactContract(perf, rows[i]) then Some(NotExact(i))
    else CheckRows(perf, rows, i + 1)
  }

  predicate CountsMatch(rows: seq<Row>, s: Summary) {
    && s.source == |rows|
    && s.declared == Count(rows, Declared) && s.effective == Count(rows, Effective)
    && s.ineligible == Count(rows, Ineligible)
    && s.dirty == Count(rows, Dirty) && s.debug == Count(rows, Debug)
    && s.unverifiedExecutable == Count(rows, UnverifiedExecutable)
    && s.unverifiedFingerprint == Count(rows, UnverifiedFingerprint)
    && s.unverifiedProfile == Count(rows, UnverifiedProfile)
    && s.uncontrolled == Count(rows, Uncontrolled)
  }

  predicate SamplesMatch(rows: seq<Row>, s: Summary) {
    s.totalSamples == SampleFold(rows) && s.eligibleSamples == SampleFold(EffectiveRows(rows))
  }

  /** The provenance part of `validate_hotspot_matrix_schema`: the first objection, if any. */
  function Validate(perf: PerfBuild, rows: seq<Row>, s: Summary): Option<Rejection> {
    if !ConfidenceOk(s) then Some(BadConfidence)
    else if !Within(s.cap, ExpectedCap(s.source, s.effective)) then Some(WrongCap)
    else if UnsafeRecords(s) > 0 && s.cap > 0.50 then Some(UnsafeCap)
    else
      var bad := CheckRows(perf, rows, 0);
      if bad.Some? then bad
      else if !CountsMatch(rows, s) then Some(CountMismatch)
      else if !SamplesMatch(rows, s) then Some(SampleMismatch)
      else None
  }

  // ---- the builder ----

  /** The counting loop of `build_hotspot_matrix`: what it leaves is what the
      validator's separate filters and folds would count, and the confidence is the
      smaller of the sample confidence and the provenance cap. */
  method BuildSummary(rows: seq<Row>, ln1p: real -> real) returns (s: Summary)
    ensures CountsMatch(rows, s) && SamplesMatch(rows, s)
    ensures s.cap == ExpectedCap(s.source, s.effective)
    ensures 0.35 <= s.sampleConfidence <= 0.99 && s.confidence == Min(s.sampleConfidence, s.cap)
    ensures s.sampleConfidence == Clamp(ln1p(s.totalSamples as real) / 8.0, 0.35, 0.99)
  {
    hide Count, SampleFold, EffectiveRows;
    EmptyCounts();
    assert rows[..0] == [];
    var total, eligible := 0, 0;
    var declared, effective, dirty, debug := 0, 0, 0, 0;
    var unverifiedExecutable, unverifiedFingerprint, unverifiedProfile, uncontrolled := 0, 0, 0, 0;
    for i := 0 to |rows|
      invariant total == SampleFold(rows[..i]) && eligible == SampleFold(EffectiveRows(rows[..i]))
      invariant declared == Count(rows[..i], Declared) && effective == Count(rows[..i], Effective)
      invariant dirty == Count(rows[..i], Dirty) && debug == Count(rows[..i], Debug)
      invariant unverifiedExecutable == Count(rows[..i], UnverifiedExecutable)
      invariant unverifiedFingerprint == Count(rows[..i], UnverifiedFingerprint)
      invariant unverifiedProfile == Count(rows[..i], UnverifiedProfile)
      invariant uncontrolled == Count(rows[..i], Uncontrolled)
    {
      var r := rows[i];
      SamplesStep(rows, i);
      CountSteps(rows, i);
      total := SaturatingAdd(total, r.samples);
      if r.declared { declared := declared + 1; }
      if r.effective {
        effective := effective + 1;
        eligible := SaturatingAdd(eligible, r.samples);
      }
      if r.facts.debugAssertions { debug := debug + 1; }
      if r.facts.sourceDirty { dirty := dirty + 1; }
      if !r.facts.verification.executableProfile { unverifiedExecutable := unverifiedExecutable + 1; }
      if !r.facts.verification.buildFingerprint { unverifiedFingerprint := unverifiedFingerprint + 1; }
      if !r.facts.verification.buildProfile { unverifiedProfile := unverifiedProfile + 1; }
      if r.hostPageCachePolicy == "uncontrolled" { uncontrolled := uncontrolled + 1; }
    }
    assert rows[..|rows|] == rows;
    CountComplement(rows);
    var sampleConfidence := Clamp(ln1p(total as real) / 8.0, 0.35, 0.99);
    var allEligible := rows != [] && effective == |rows|;
    var cap := if allEligible then 0.80 else if effective > 0 then 0.50 else 0.35;
    s := EvidenceSummary(
      |rows|, declared, effective, |rows| - effective, total, eligible,
      sampleConfidence, cap, Min(sampleConfidence, cap),
      dirty, debug, unverifiedExecutable, unverifiedFingerprint, unverifiedProfile, uncontrolled);
  }

  lemma CountStep(rows: seq<Row>, i: nat, p: Row -> bool)
    requires i < |rows|
    ensures Count(rows[..i + 1], p) == Count(rows[..i], p) + if p(rows[i]) then 1 else 0
  {
    assert rows[..i + 1][..i] == rows[..i];
  }

  lemma EmptyCounts()
    ensures SampleFold([]) == 0 && EffectiveRows([]) == [] && forall p: Row -> bool :: Count([], p) == 0
  {
  }

  lemma CountSteps(rows: seq<Row>, i: nat)
    requires i < |rows|
    ensures forall p: Row -> bool :: Count(rows[..i + 1], p) == Count(rows[..i], p) + if p(rows[i]) then 1 else 0
  {
    forall p: Row -> bool ensures Count(rows[..i + 1], p) == Count(rows[..i], p) + if p(rows[i]) then 1 else 0 {
      CountStep(rows, i, p);
    }
  }

  lemma SamplesStep(rows: seq<Row>, i: nat)
    requires i < |rows|
    ensures SampleFold(rows[..i + 1]) == SaturatingAdd(SampleFold(rows[..i]), rows[i].samples)
    ensures SampleFold(EffectiveRows(rows[..i + 1]))
         == if rows[i].effective then SaturatingAdd(SampleFold(EffectiveRows(rows[..i])), rows[i].samples)
            else SampleFold(EffectiveRows(rows[..i]))
  {
    assert rows[..i + 1][..i] == rows[..i];
    var kept := EffectiveRows(rows[..i]);
    assert (kept + [rows[i]])[..|kept|] == kept;
    assert EffectiveRows(rows[..i + 1]) == kept + if rows[i].effective then [rows[i]] else [];
    assert kept + [] == kept;
  }

  /** Subtracting the eligible rows is counting the ineligible ones. */
  lemma {:induction false} CountComplement(rows: seq<Row>)
    ensures Count(rows, Ineligible) == |rows| - Count(rows, Effective)
  {
    if rows != [] { CountComplement(rows[..|rows| - 1]); }
  }

  // ---- what the two sides promise each other ----

  /** What `BuildSummary` promises of its result. */
  ghost predicate Built(rows: seq<Row>, s: Summary) {
    && CountsMatch(rows, s) && SamplesMatch(rows, s)
    && s.cap == ExpectedCap(s.source, s.effective)
    && 0.35 <= s.sampleConfidence <= 0.99 && s.confidence == Min(s.sampleConfidence, s.cap)
  }

  lemma {:induction false} CountFull<T>(s: seq<T>, p: T -> bool)
    ensures Count(s, p) == |s| <==> forall i :: 0 <= i < |s| ==> p(s[i])
  {
    if s != [] {
      var init := s[..|s| - 1];
      CountFull(init, p);
      assert forall i :: 0 <= i < |init| ==> init[i] == s[i];
      assert (forall i :: 0 <= i < |init| ==> p(init[i])) <==> forall i :: 0 <= i < |s| - 1 ==> p(s[i]);
    }
  }

  lemma {:induction false} CountNone<T>(s: seq<T>, p: T -> bool)
    ensures Count(s, p) == 0 <==> forall i :: 0 <= i < |s| ==> !p(s[i])
  {
    if s != [] {
      var init := s[..|s| - 1];
      CountNone(init, p);
      assert forall i :: 0 <= i < |init| ==> init[i] == s[i];
      assert (forall i :: 0 <= i < |init| ==> !p(init[i])) <==> forall i :: 0 <= i < |s| - 1 ==> !p(s[i]);
    }
  }

  lemma {:induction false} ParsedRowsMeetContract(perf: PerfBuild, records: seq<Json>, i: nat)
    requires i < |ParseAll(perf, records)|
    ensures ParseAll(perf, records)[i].effective ==> ExactContract(perf, ParseAll(perf, records)[i])
  {
    var first := Parse(perf, records[0]);
    if first.Some? { EligibleIffContract(perf, records[0]); }
    var skip := if first.Some? then 1 else 0;
    if i >= skip { ParsedRowsMeetContract(perf, records[1..], i - skip); }
  }

  /** The row loop stops at the first row whose features do not ascend or which is
      effective without meeting the contract. */
  lemma {:induction false} CheckRowsFinds(perf: PerfBuild, rows: seq<Row>, i: nat)
    requires i <= |rows|
    ensures var bad := CheckRows(perf, rows, i);
            bad.None? <==> forall k :: i <= k < |rows| ==>
              FeaturesAscend(rows[k].facts.features) && (rows[k].effective ==> ExactContract(perf, rows[k]))
    ensures var bad := CheckRows(perf, rows, i);
            bad.Some? ==>
              && (bad.value.UnsortedFeatures? || bad.value.NotExact?) && i <= bad.value.row < |rows|
              && (bad.value.UnsortedFeatures? <==> !FeaturesAscend(rows[bad.value.row].facts.features))
              && (bad.value.NotExact? ==> rows[bad.value.row].effective && !ExactContract(perf, rows[bad.value.row]))
              && forall k :: i <= k < bad.value.row ==> FeaturesAscend(rows[k].facts.features)
    decreases |rows| - i
  {
    if i < |rows| { CheckRowsFinds(perf, rows, i + 1); }
  }

  function TimingOf(r: Row): Attribution.Timing { Attribution.Timing(r.scenario, r.samples, r.totalUs, r.weights) }

  lemma {:induction false} ParsedWeights(perf: PerfBuild, records: seq<Json>, i: nat)
    requires i < |ParseAll(perf, records)|
    ensures ParseAll(perf, records)[i].weights.Sum() == 1.0 && ParseAll(perf, records)[i].totalUs > 0.0
  {
    hide GateEligible;
    var first := Parse(perf, records[0]);
    var skip := if first.Some? then 1 else 0;
    if i >= skip { ParsedWeights(perf, records[1..], i - skip); }
  }

  /** Whatever records are read, the stage totals add up to the time of the parsed ones. */
  lemma ParsedTimeConserved(perf: PerfBuild, records: seq<Json>)
    ensures var timings := Map(ParseAll(perf, records), TimingOf);
      Attribution.Normalized(timings) && Attribution.TotalsOf(timings).Sum() == Attribution.TotalTime(timings)
  {
    hide Parse;
    var timings := Map(ParseAll(perf, records), TimingOf);
    forall i | 0 <= i < |timings| ensures timings[i].weights.Sum() == 1.0 {
      ParsedWeights(perf, records, i);
    }
    Attribution.TotalsConserveTime(timings);
  }

  /** The summary's sample count is the sum of the samples, held at the largest count. */
  lemma {:induction false} SampleFoldIs(rows: seq<Row>)
    ensures var sum := Attribution.SampleSum(Map(rows, TimingOf));
      SampleFold(rows) == if sum > U64_MAX then U64_MAX else sum
  {
    var timings := Map(rows, TimingOf);
    if rows != [] {
      var init := rows[..|rows| - 1];
      SampleFoldIs(init);
      assert timings[..|timings| - 1] == Map(init, TimingOf);
    }
  }

  /** The summary and the interference matrix count the same samples exactly while the
      sum fits 64 bits, or where it happens to wrap to the largest count. */
  lemma SampleCountsAgreeIff(rows: seq<Row>, a: Attribution.Stage, b: Attribution.Stage)
    ensures var timings := Map(rows, TimingOf);
      var sum := Attribution.SampleSum(timings);
      Attribution.EntryOf(timings, a, b).samples == SampleFold(rows)
      <==> sum <= U64_MAX || sum % (U64_MAX + 1) == U64_MAX
  {
    hide SampleFold, Attribution.EntryOf, Attribution.SampleSum;
    SampleFoldIs(rows);
    Attribution.EntryTotals(Map(rows, TimingOf), a, b);
  }

  /** A cap of 0.80 rests on clean evidence only: every row meets the exact contract,
      so no row is dirty, debug, unverified or uncontrolled. */
  lemma TopCapMeansClean(perf: PerfBuild, rows: seq<Row>, s: Summary)
    requires forall i :: 0 <= i < |rows| && rows[i].effective ==> ExactContract(perf, rows[i])
    requires CountsMatch(rows, s)
    ensures ExpectedCap(s.source, s.effective) == 0.80
      <==> rows != [] && forall i :: 0 <= i < |rows| ==> rows[i].effective
    ensures ExpectedCap(s.source, s.effective) == 0.80 ==>
      && s.dirty == s.debug == s.uncontrolled == 0
      && s.unverifiedExecutable == s.unverifiedFingerprint == s.unverifiedProfile == 0
      && s.declared == s.effective == s.source && s.ineligible == 0
      && forall i :: 0 <= i < |rows| ==> ExactContract(perf, rows[i])
  {
    hide Count;
    CountFull(rows, Effective);
    CountFull(rows, Declared);
    CountNone(rows, Ineligible);
    CountNone(rows, Dirty);
    CountNone(rows, Debug);
    CountNone(rows, UnverifiedExecutable);
    CountNone(rows, UnverifiedFingerprint);
    CountNone(rows, UnverifiedProfile);
    CountNone(rows, Uncontrolled);
    if rows != [] && forall i :: 0 <= i < |rows| ==> rows[i].effective {
      assert forall i :: 0 <= i < |rows| ==> Effective(rows[i]);
    }
    if ExpectedCap(s.source, s.effective) == 0.80 {
      forall i | 0 <= i < |rows|
        ensures rows[i].effective && ExactContract(perf, rows[i]) && Declared(rows[i])
        ensures !Ineligible(rows[i]) && !Dirty(rows[i]) && !Debug(rows[i])
        ensures !UnverifiedExecutable(rows[i]) && !UnverifiedFingerprint(rows[i]) && !UnverifiedProfile(rows[i])
        ensures !Uncontrolled(rows[i])
      {
        assert Effective(rows[i]);
        assert |rows[i].hostPageCachePolicy| == 30;
      }
    }
  }

  /** Whatever the parser reads, the summary built from its rows passes the validator
      exactly when every row's compiled features are strictly ascending. Otherwise
      the objection is to the first row whose features are not. */
  lemma BuiltPassesIffFeaturesAscend(perf: PerfBuild, records: seq<Json>, s: Summary)
    requires Built(ParseAll(perf, records), s)
    ensures var rows, verdict := ParseAll(perf, records), Validate(perf, ParseAll(perf, records), s);
      && (verdict.None? <==> forall i :: 0 <= i < |rows| ==> FeaturesAscend(rows[i].facts.features))
      && (verdict.Some? ==>
            && verdict.value.UnsortedFeatures? && verdict.value.row < |rows|
            && !FeaturesAscend(rows[verdict.value.row].facts.features)
            && forall k :: 0 <= k < verdict.value.row ==> FeaturesAscend(rows[k].facts.features))
  {
    var rows := ParseAll(perf, records);
    forall i | 0 <= i < |rows| && rows[i].effective ensures ExactContract(perf, rows[i]) {
      ParsedRowsMeetContract(perf, records, i);
    }
    TopCapMeansClean(perf, rows, s);
    CheckRowsFinds(perf, rows, 0);
  }

  /** Any document the validator accepts, built or forged, with a cap above 0.50 by more than
      the tolerance has nothing but rows that meet the exact contract, and says so in its counts. */
  lemma AcceptedHighCapIsClean(perf: PerfBuild, rows: seq<Row>, s: Summary)
    requires Validate(perf, rows, s) == None && s.cap > 0.50 + EPSILON
    ensures rows != [] && forall i :: 0 <= i < |rows| ==> ExactContract(perf, rows[i])
    ensures s.dirty == s.debug == s.uncontrolled == 0
    ensures s.unverifiedExecutable == s.unverifiedFingerprint == s.unverifiedProfile == 0
    ensures s.effective == s.source == |rows| && s.totalSamples == s.eligibleSamples
  {
    CheckRowsFinds(perf, rows, 0);
    TopCapMeansClean(perf, rows, s);
    AllEffective(rows);
  }

  lemma {:induction false} AllEffective(rows: seq<Row>)
    requires forall i :: 0 <= i < |rows| ==> rows[i].effective
    ensures EffectiveRows(rows) == rows
  {
    if rows != [] { AllEffective(rows[..|rows| - 1]); }
  }

  /** A record that parses but carries unsorted features. */
  function UnsortedRecord(): Json {
    Obj(map[Schema := Str(BENCH_SCHEMA), Scenario := Str("s"), ElapsedMs := Int(1),
            CompiledFeatures := Arr([Str("b"), Str("a")])])
  }

  lemma UnsortedFeaturesKept()
    ensures Features(UnsortedRecord()) == ["b", "a"] && !FeaturesAscend(["b", "a"])
    ensures TotalUs(UnsortedRecord()) == 1000.0
  {
    var items, features := [Str("b"), Str("a")], ["b", "a"];
    var tail := items[1..];
    assert tail[1..] == [] && AsStrings(tail[1..]).value == [];
    assert AsStrings(tail).value == ["a"];
    assert AsStrings(items).value == ["b"] + AsStrings(tail).value;
    assert !StrLt(features[0], features[1]);
  }

  /** The builder's own output can be refused: the parser keeps unsorted features on a
      row that is not eligible, and the validator demands order of every row. */
  lemma BuilderOutputRefused(perf: PerfBuild, s: Summary)
    requires Built(ParseAll(perf, [UnsortedRecord()]), s)
    ensures |ParseAll(perf, [UnsortedRecord()])| == 1
    ensures Validate(perf, ParseAll(perf, [UnsortedRecord()]), s) == Some(UnsortedFeatures(0))
  {
    hide GateEligible, ExactContract;
    var r := UnsortedRecord();
    UnsortedFeaturesKept();
    var row := Parse(perf, r).value;
    assert [r][1..] == [];
    assert ParseAll(perf, [r]) == [row] by { assert ParseAll(perf, [r][1..]) == []; }
    BuiltPassesIffFeaturesAscend(perf, [r], s);
  }
}
