/** What each verdict means: an exact condition on what is visible of a candidate, stated
    apart from the classifier's order of tests, with the confidence that goes with it and
    when a review is asked for. And where the visible evidence comes from. */
module Verdicts {
  import opened FullValidation
  import opened ProviderCompat
  import opened Sequences
  import opened ShardFold
  import opened Sorting
  import opened Text
  import opened Wrappers

  // ---- what is visible of a candidate ----

  datatype Seen = Seen(
    vendored: bool, listed: bool, result: Option<ShardResult>, scenarios: Scenarios, failedModes: seq<string>,
    repair: Option<Repair>, category: string, reason: string, notes: string)

  /** The category is the conformance result's, else the dossier's. */
  function CategoryOf(result: Option<ShardResult>, dossier: Option<Dossier>): string {
    if result.Some? && result.value.failureCategory.Some? then result.value.failureCategory.value
    else if dossier.Some? && dossier.value.category.Some? then dossier.value.category.value
    else "unknown"
  }

  /** The reason is the conformance result's, else the dossier's, else the repair run's. */
  function ReasonOf(result: Option<ShardResult>, dossier: Option<Dossier>, repair: Option<Repair>): string {
    if result.Some? && result.value.failureReason.Some? then result.value.failureReason.value
    else if dossier.Some? && dossier.value.reason.Some? then dossier.value.reason.value
    else if repair.Some? && repair.value.error.Some? then repair.value.error.value
    else "unknown failure"
  }

  function SeenOf(item: Candidate, ctx: Context): Seen {
    var result, dossier, repair := Lookup(ctx.conformance, item), Lookup(ctx.dossiers, item), Lookup(ctx.repairs, item);
    var scenarios, modes := Lookup(ctx.scenarios, item), FindIn(ctx.providers, [item.id] + item.aliases);
    Seen(!EqIgnoreCase(item.status, "unvendored"), Lookup(ctx.manifest, item).Some?, result,
         if scenarios.Some? then scenarios.value else Scenarios(0, 0, 0), if modes.Some? then modes.value else [],
         repair, CategoryOf(result, dossier), ReasonOf(result, dossier, repair),
         if item.notes.Some? then item.notes.value else "")
  }

  /** Mentioned anywhere, in any case. */
  predicate Says(text: string, words: string) { Contains(Lower(text), words) }

  /** Vendored, in the manifest, and with a conformance result. */
  predicate Tested(s: Seen) { s.vendored && s.listed && s.result.Some? }

  predicate StatusIs(s: Seen, word: string)
    requires Tested(s)
  {
    EqIgnoreCase(Trim(s.result.value.status), word)
  }

  predicate Passing(s: Seen) { Tested(s) && (StatusIs(s, "pass") || StatusIs(s, "passed")) }

  predicate SkippedResult(s: Seen) { Tested(s) && (StatusIs(s, "skip") || StatusIs(s, "skipped")) }

  /** Any other status is a failure. */
  predicate Failing(s: Seen) { Tested(s) && !Passing(s) && !SkippedResult(s) }

  /** The repair run reports a load failure other than a missing artifact. */
  predicate RepairFailed(s: Seen) {
    s.repair.Some? && !s.repair.value.loaded && s.repair.value.error.Some?
    && var error := s.repair.value.error.value; error != "" && !StartsWith(Lower(error), "artifact not found")
  }

  /** A load error and nothing that takes precedence over it. */
  predicate OnlyLoadError(s: Seen) {
    && Says(s.category, "extension_load_error")
    && !Says(s.category, "artifact_missing") && !Says(s.category, "load_spec_error")
    && !Says(s.category, "runtime_start_error")
    && !Says(s.category, "manifest_missing") && !Says(s.category, "registration_mismatch")
  }

  predicate MissesModule(s: Seen) {
    || Says(s.reason, "module not found") || Says(s.reason, "cannot find module") || Says(s.reason, "cannot resolve")
    || Says(s.reason, "missing package") || Says(s.reason, "import")
  }

  predicate MissesFile(s: Seen) {
    Says(s.reason, "enoent") || Says(s.reason, "no such file") || Says(s.reason, "readfilesync")
  }

  predicate NotesDenyEntrypoint(s: Seen) {
    || Says(s.notes, "no extensionapi default-export entrypoint") || Says(s.notes, "no extension entrypoint")
    || Says(s.notes, "not a pi extension") || Says(s.notes, "not an extension")
  }

  predicate NotesExclude(s: Seen) {
    || NotesDenyEntrypoint(s)
    || Says(s.notes, "customtoolfactory") || Says(s.notes, "toolapi tool factory") || Says(s.notes, "tool factories")
    || Says(s.notes, "not tracked as a direct extensionapi") || Says(s.notes, "excluded from direct extensionapi")
    || Says(s.notes, "kept out of master catalog") || Says(s.notes, "typed git utility library surface")
  }

  // ---- the classifier on what is visible ----

  lemma AnyAppend(t: string, a: seq<string>, b: seq<string>)
    ensures ContainsAny(t, a + b) <==> ContainsAny(t, a) || ContainsAny(t, b)
  {
    hide Contains;
    if i :| 0 <= i < |a| && Contains(t, a[i]) { assert Contains(t, (a + b)[i]); }
    if i :| 0 <= i < |b| && Contains(t, b[i]) { assert Contains(t, (a + b)[|a| + i]); }
  }

  lemma AnyOfThree(t: string, x: string, y: string, z: string)
    ensures ContainsAny(t, [x, y, z]) <==> Contains(t, x) || Contains(t, y) || Contains(t, z)
  {
    hide Contains;
    var all := [x, y, z];
    assert all[0] == x && all[1] == y && all[2] == z;
  }

  lemma AnyOfTwo(t: string, x: string, y: string)
    ensures ContainsAny(t, [x, y]) <==> Contains(t, x) || Contains(t, y)
  {
    hide Contains;
    var all := [x, y];
    assert all[0] == x && all[1] == y;
  }

  lemma NotesSpelled(s: Seen)
    ensures ContainsAny(Lower(s.notes), UNVENDORED_MARKERS) <==> NotesDenyEntrypoint(s)
    ensures ContainsAny(Lower(s.notes), NON_EXTENSION_MARKERS) <==> NotesExclude(s)
  {
    hide Contains, Lower, ContainsAny;
    var t := Lower(s.notes);
    var a, b := ["no extensionapi default-export entrypoint", "no extension entrypoint"],
                ["not a pi extension", "not an extension"];
    AnyOfTwo(t, a[0], a[1]);
    AnyOfTwo(t, b[0], b[1]);
    AnyAppend(t, a, b);
    var c, d := ["customtoolfactory", "toolapi tool factory", "tool factories"],
                ["not tracked as a direct extensionapi", "excluded from direct extensionapi"];
    var e := ["kept out of master catalog", "typed git utility library surface"];
    AnyOfThree(t, c[0], c[1], c[2]);
    AnyOfTwo(t, d[0], d[1]);
    AnyOfTwo(t, e[0], e[1]);
    AnyAppend(t, a + b, c + d + e);
    AnyAppend(t, c + d, e);
    AnyAppend(t, c, d);
    assert UNVENDORED_MARKERS == a + b && NON_EXTENSION_MARKERS == a + b + (c + d + e);
  }

  lemma ReasonsSpelled(s: Seen)
    ensures MissesModule(s) <==> ContainsAny(Lower(s.reason),
              ["module not found", "cannot find module", "cannot resolve", "missing package", "import"])
    ensures MissesFile(s) <==> ContainsAny(Lower(s.reason), ["enoent", "no such file", "readfilesync"])
  {
    hide Contains, Lower, ContainsAny;
    var t := Lower(s.reason);
    var a, b := ["module not found", "cannot find module", "cannot resolve"], ["missing package", "import"];
    AnyOfThree(t, a[0], a[1], a[2]);
    AnyOfTwo(t, b[0], b[1]);
    AnyAppend(t, a, b);
    assert a + b == ["module not found", "cannot find module", "cannot resolve", "missing package", "import"];
    AnyOfThree(t, "enoent", "no such file", "readfilesync");
  }

  lemma LowerWords()
    ensures Lower("pass") == "pass" && Lower("passed") == "passed"
    ensures Lower("skip") == "skip" && Lower("skipped") == "skipped"
  {
  }

  lemma LowerKeepsEmpty(t: string)
    ensures Lower(t) == "" <==> t == ""
  {
  }

  /** What settles the case of a passing result. */
  function OfPassing(s: Seen): Classification {
    if RepairFailed(s) then Classification(NeedsReview, 0.55)
    else if s.scenarios.fail > 0 then Classification(ProjectBug, 0.82)
    else if s.scenarios.error > 0 then Classification(NeedsReview, 0.7)
    else if s.failedModes != [] then Classification(ProjectLimitation, 0.8)
    else if s.repair.Some? && s.repair.value.loaded && s.repair.value.events > 0
    then Classification(PassWithAutoRepair, 0.98)
    else Classification(Verdict.Pass, 0.99)
  }

  /** What settles the case of a failing one. */
  function OfFailing(s: Seen): Classification {
    if Says(s.category, "artifact_missing") then Classification(HarnessGap, 0.96)
    else if Says(s.category, "load_spec_error") then Classification(ExtensionProblem, 0.9)
    else if Says(s.category, "runtime_start_error") then Classification(ProjectBug, 0.9)
    else if Says(s.category, "manifest_missing") || Says(s.category, "registration_mismatch")
    then Classification(HarnessGap, 0.86)
    else if !Says(s.category, "extension_load_error") then Classification(NeedsReview, 0.4)
    else if MissesModule(s) then Classification(ProjectLimitation, 0.9)
    else if MissesFile(s) then Classification(ExtensionProblem, 0.78)
    else Classification(NeedsReview, 0.45)
  }

  function Classified(s: Seen): Classification {
    if !s.vendored then
      if NotesDenyEntrypoint(s) then Classification(NotExtension, 0.99) else Classification(NotTestedUnvendored, 0.97)
    else if !s.listed then
      if NotesExclude(s) then Classification(NotExtension, 0.99) else Classification(HarnessGap, 0.84)
    else if s.result.None? then Classification(HarnessGap, 0.65)
    else if Passing(s) then OfPassing(s)
    else if SkippedResult(s) then Classification(HarnessGap, 0.9)
    else OfFailing(s)
  }

  lemma PassingMeans(s: Seen)
    ensures ClassifyPassing(s.repair, s.scenarios, |SortDedup(s.failedModes)|) == OfPassing(s)
  {
    EmptySortDedup(s.failedModes);
    if s.repair.Some? && s.repair.value.error.Some? { LowerKeepsEmpty(s.repair.value.error.value); }
    LowerKeepsEmpty("");
    hide Lower, StartsWith, SortDedup;
  }

  lemma FailingMeans(s: Seen)
    ensures ClassifyFailing(Lower(s.category), Lower(s.reason)) == OfFailing(s)
  {
    ReasonsSpelled(s);
    hide Lower, Contains, ContainsAny, MissesModule, MissesFile;
  }

  /** Everything the classifier uses is visible. */
  lemma ClassifiedFromSeen(item: Candidate, ctx: Context)
    ensures var a, c := ClassifyItem(item, ctx), Classified(SeenOf(item, ctx));
      a.verdict == c.verdict && a.confidence == c.confidence
  {
    var s := SeenOf(item, ctx);
    LowerWords();
    NotesSpelled(s);
    PassingMeans(s);
    FailingMeans(s);
    hide ContainsAny, Keys, SortDedup, ClassifyFailing, ClassifyPassing, Lower, Trim, FindIn, NotesExclude;
    hide NotesDenyEntrypoint, OfPassing, OfFailing;
  }

  // ---- the verdicts ----

  /** A bug of the project: a scenario fails although the result passes, or the runtime
      did not start. */
  lemma ProjectBugIff(item: Candidate, ctx: Context)
    ensures ClassifyItem(item, ctx).verdict == ProjectBug <==>
      var s := SeenOf(item, ctx);
      || (Passing(s) && !RepairFailed(s) && s.scenarios.fail > 0)
      || (Failing(s) && Says(s.category, "runtime_start_error")
          && !Says(s.category, "artifact_missing") && !Says(s.category, "load_spec_error"))
  {
    hide ClassifyItem, SeenOf, Says, RepairFailed, StatusIs, MissesModule, MissesFile, NotesExclude;
    hide NotesDenyEntrypoint;
    ClassifiedFromSeen(item, ctx);
  }

  /** A limitation of the project: the result passes and some provider mode fails, or the
      extension wants a module the runtime lacks. */
  lemma ProjectLimitationIff(item: Candidate, ctx: Context)
    ensures ClassifyItem(item, ctx).verdict == ProjectLimitation <==>
      var s := SeenOf(item, ctx);
      || (Passing(s) && !RepairFailed(s) && s.scenarios.fail == 0 && s.scenarios.error == 0 && s.failedModes != [])
      || (Failing(s) && OnlyLoadError(s) && MissesModule(s))
  {
    hide ClassifyItem, SeenOf, Says, RepairFailed, StatusIs, MissesModule, MissesFile, NotesExclude;
    hide NotesDenyEntrypoint;
    ClassifiedFromSeen(item, ctx);
  }

  /** A problem of the extension: its entrypoint is no load spec, or it wants a file that
      is not there. */
  lemma ExtensionProblemIff(item: Candidate, ctx: Context)
    ensures ClassifyItem(item, ctx).verdict == ExtensionProblem <==>
      var s := SeenOf(item, ctx);
      || (Failing(s) && Says(s.category, "load_spec_error") && !Says(s.category, "artifact_missing"))
      || (Failing(s) && OnlyLoadError(s) && !MissesModule(s) && MissesFile(s))
  {
    hide ClassifyItem, SeenOf, Says, RepairFailed, StatusIs, MissesModule, MissesFile, NotesExclude;
    hide NotesDenyEntrypoint;
    ClassifiedFromSeen(item, ctx);
  }

  /** A pass that needed repairs: everything a pass needs, and repairs were applied. */
  lemma PassWithAutoRepairIff(item: Candidate, ctx: Context)
    ensures ClassifyItem(item, ctx).verdict == PassWithAutoRepair <==>
      var s := SeenOf(item, ctx);
      && Passing(s) && s.scenarios.fail == 0 && s.scenarios.error == 0 && s.failedModes == []
      && s.repair.Some? && s.repair.value.loaded && s.repair.value.events > 0
  {
    hide ClassifyItem, SeenOf, Says, StatusIs, MissesModule, MissesFile, NotesExclude;
    hide NotesDenyEntrypoint;
    ClassifiedFromSeen(item, ctx);
  }

  /** Undecided: the repair run contradicts a passing result, a scenario broke, or the
      failure is of no known kind. */
  lemma NeedsReviewIff(item: Candidate, ctx: Context)
    ensures ClassifyItem(item, ctx).verdict == NeedsReview <==>
      var s := SeenOf(item, ctx);
      || (Passing(s) && (RepairFailed(s) || (s.scenarios.fail == 0 && s.scenarios.error > 0)))
      || (Failing(s) && OnlyLoadError(s) && !MissesModule(s) && !MissesFile(s))
      || (Failing(s) && !Says(s.category, "artifact_missing") && !Says(s.category, "load_spec_error")
          && !Says(s.category, "runtime_start_error") && !Says(s.category, "manifest_missing")
          && !Says(s.category, "registration_mismatch") && !Says(s.category, "extension_load_error"))
  {
    hide ClassifyItem, SeenOf, Says, RepairFailed, StatusIs, MissesModule, MissesFile, NotesExclude;
    hide NotesDenyEntrypoint;
    ClassifiedFromSeen(item, ctx);
  }

  /** A gap of the harness: a vendored candidate that is not listed and not excluded, has
      no result or a skipped one, or failed for want of an artifact or of a matching
      manifest. */
  lemma HarnessGapIff(item: Candidate, ctx: Context)
    ensures ClassifyItem(item, ctx).verdict == HarnessGap <==>
      var s := SeenOf(item, ctx);
      || (s.vendored && !s.listed && !NotesExclude(s))
      || (s.vendored && s.listed && s.result.None?)
      || SkippedResult(s)
      || (Failing(s) && Says(s.category, "artifact_missing"))
      || (Failing(s) && (Says(s.category, "manifest_missing") || Says(s.category, "registration_mismatch"))
          && !Says(s.category, "load_spec_error") && !Says(s.category, "runtime_start_error"))
  {
    PassOrSkip(SeenOf(item, ctx));
    hide ClassifyItem, SeenOf, Says, RepairFailed, StatusIs, MissesModule, MissesFile, NotesExclude;
    hide NotesDenyEntrypoint;
    ClassifiedFromSeen(item, ctx);
  }

  lemma PassOrSkip(s: Seen)
    ensures !(Passing(s) && SkippedResult(s))
  {
    LowerWords();
    hide Lower, Trim;
  }

  /** Out of scope: the notes of a candidate that is not vendored, or not listed, say so. */
  lemma NotExtensionIff(item: Candidate, ctx: Context)
    ensures ClassifyItem(item, ctx).verdict == NotExtension <==>
      var s := SeenOf(item, ctx);
      (!s.vendored && NotesDenyEntrypoint(s)) || (s.vendored && !s.listed && NotesExclude(s))
  {
    hide ClassifyItem, SeenOf, Says, RepairFailed, StatusIs, MissesModule, MissesFile, NotesExclude;
    hide NotesDenyEntrypoint;
    ClassifiedFromSeen(item, ctx);
  }

  lemma NotTestedIff(item: Candidate, ctx: Context)
    ensures ClassifyItem(item, ctx).verdict == NotTestedUnvendored <==>
      var s := SeenOf(item, ctx); !s.vendored && !NotesDenyEntrypoint(s)
  {
    hide ClassifyItem, SeenOf, Says, RepairFailed, StatusIs, MissesModule, MissesFile, NotesExclude;
    hide NotesDenyEntrypoint;
    ClassifiedFromSeen(item, ctx);
  }

  // ---- confidence and review ----

  function UndecidedConfidence(s: Seen): real {
    if Failing(s) then (if Says(s.category, "extension_load_error") then 0.45 else 0.4)
    else if RepairFailed(s) then 0.55
    else 0.7
  }

  function GapConfidence(s: Seen): real {
    if !s.listed then 0.84
    else if s.result.None? then 0.65
    else if SkippedResult(s) then 0.9
    else if Says(s.category, "artifact_missing") then 0.96
    else 0.86
  }

  /** The confidence each verdict is held with. */
  lemma ConfidenceOf(item: Candidate, ctx: Context)
    ensures var a, s := ClassifyItem(item, ctx), SeenOf(item, ctx);
      match a.verdict
      case Pass => a.confidence == 0.99
      case PassWithAutoRepair => a.confidence == 0.98
      case NotExtension => a.confidence == 0.99
      case NotTestedUnvendored => a.confidence == 0.97
      case ProjectLimitation => a.confidence == if Passing(s) then 0.8 else 0.9
      case ExtensionProblem => a.confidence == if Says(s.category, "load_spec_error") then 0.9 else 0.78
      case ProjectBug => a.confidence == if Passing(s) then 0.82 else 0.9
      case NeedsReview => a.confidence == UndecidedConfidence(s)
      case HarnessGap => a.confidence == GapConfidence(s)
  {
    PassOrSkip(SeenOf(item, ctx));
    hide ClassifyItem, SeenOf, Says, RepairFailed, StatusIs, MissesModule, MissesFile, NotesExclude;
    hide NotesDenyEntrypoint;
    ClassifiedFromSeen(item, ctx);
  }

  /** A review is asked for a bug, for anything undecided, and for any verdict held with
      less confidence than the threshold; so below 0.65 for nothing else, and above 0.99
      for everything. */
  lemma ReviewIff(item: Candidate, ctx: Context)
    ensures var a := ClassifyItem(item, ctx);
      && (a.needsReview <==>
          a.verdict == ProjectBug || a.verdict == NeedsReview || a.confidence < ctx.reviewThreshold)
      && (ctx.reviewThreshold <= 0.65 ==> (a.needsReview <==> a.verdict == ProjectBug || a.verdict == NeedsReview))
      && (ctx.reviewThreshold > 0.99 ==> a.needsReview)
  {
    ConfidenceOf(item, ctx);
    ReviewFlag(item, ctx);
    hide ClassifyItem, SeenOf, Says, Passing, SkippedResult, Failing, RepairFailed;
  }

  lemma ReviewFlag(item: Candidate, ctx: Context)
    ensures var a := ClassifyItem(item, ctx);
      a.needsReview <==> a.verdict == ProjectBug || a.verdict == NeedsReview || a.confidence < ctx.reviewThreshold
  {
    hide ClassifyUnvendored, ClassifyVendored, Lookup, FindIn, SortDedup;
  }

  // ---- where the evidence comes from ----

  /** The first key that is known decides. */
  lemma {:induction false} FoundFirst<T>(m: map<string, T>, keys: seq<string>)
    ensures FindIn(m, keys).None? <==> forall i :: 0 <= i < |keys| ==> keys[i] !in m
    ensures FindIn(m, keys).Some? ==>
      exists i :: 0 <= i < |keys| && keys[i] in m && FindIn(m, keys) == Some(m[keys[i]])
                  && forall j :: 0 <= j < i ==> keys[j] !in m
  {
    if keys != [] && keys[0] !in m {
      FoundFirst(m, keys[1..]);
      if FindIn(m, keys).Some? {
        var i :| 0 <= i < |keys[1..]| && keys[1..][i] in m && FindIn(m, keys[1..]) == Some(m[keys[1..][i]])
                 && forall j :: 0 <= j < i ==> keys[1..][j] !in m;
        assert forall j :: 0 < j < i + 1 ==> keys[j] == keys[1..][j - 1];
        assert keys[i + 1] in m;
      }
    }
  }

  /** A candidate is looked up under its id, then its aliases, then the flattened names of
      its scoped npm ids in order. */
  lemma KeysTried(item: Candidate)
    ensures var keys, named := Keys(item), [item.id] + item.aliases;
      && |named| <= |keys| && keys[..|named|] == named && StrictlyAscending(keys[|named|..])
      && forall k :: k in keys[|named|..] <==> exists i :: 0 <= i < |named| && k in Variants(named[i])
  {
    hide SortDedup, Variants;
    var named := [item.id] + item.aliases;
    SortDedupSpec(AllVariants(named));
    assert Keys(item)[|named|..] == SortDedup(AllVariants(named));
    forall k ensures k in AllVariants(named) <==> exists i :: 0 <= i < |named| && k in Variants(named[i]) {
      VariantsWhere(named, k);
    }
  }

  lemma {:induction false} VariantsWhere(raws: seq<string>, k: string)
    ensures k in AllVariants(raws) <==> exists i :: 0 <= i < |raws| && k in Variants(raws[i])
  {
    hide Variants;
    if raws != [] {
      VariantsWhere(raws[1..], k);
      if i :| 0 <= i < |raws| && k in Variants(raws[i]) { assert i > 0 ==> raws[i] == raws[1..][i - 1]; }
      if i :| 0 <= i < |raws[1..]| && k in Variants(raws[1..][i]) { assert raws[i + 1] == raws[1..][i]; }
    }
  }

  /** `npm/@scope/name` and `npm:@scope/name` are also known as `npm/scope-name`; an id
      that is not scoped has no other name. */
  lemma ScopedName(scope: string, name: string, raw: string)
    requires '/' !in scope && '/' !in name
    ensures Variants("npm/@" + scope + "/" + name) == ["npm/" + scope + "-" + name]
    ensures Variants("npm:@" + scope + "/" + name) == ["npm/" + scope + "-" + name]
    ensures Variants(raw) != [] <==> "npm/@" <= raw || "npm:@" <= raw
  {
    hide Variants, Flattened;
    var rest := scope + "/" + name;
    FlattenedName(scope, name);
    VariantOf("npm/@", rest);
    VariantOf("npm:@", rest);
    assert "npm/@" + scope + "/" + name == "npm/@" + rest && "npm:@" + scope + "/" + name == "npm:@" + rest;
    assert "npm/" + (scope + "-" + name) == "npm/" + scope + "-" + name;
    ScopedOnly(raw);
  }

  lemma VariantOf(prefix: string, rest: string)
    requires prefix == "npm/@" || prefix == "npm:@"
    ensures Variants(prefix + rest) == ["npm/" + Flattened(rest)]
  {
    hide Flattened;
    assert (prefix + rest)[..5] == prefix && (prefix + rest)[5..] == rest;
  }

  lemma ScopedOnly(raw: string)
    ensures Variants(raw) != [] <==> "npm/@" <= raw || "npm:@" <= raw
  {
    hide Flattened;
  }

  lemma FlattenedName(scope: string, name: string)
    requires '/' !in scope && '/' !in name
    ensures Flattened(scope + "/" + name) == scope + "-" + name
  {
    var rest := scope + "/" + name;
    assert forall i :: 0 <= i < |rest| ==> (rest[i] == '/' <==> i == |scope|);
  }

  /** The event log's reading of a status is the tally's: a default mode that counts as
      passed, and any other mode that counts as failed. */
  lemma EventsReadAsTally(l: Line)
    ensures DefaultPassed(l) <==> l.Event? && EqIgnoreCase(Trim(l.mode), "default") && Tally(l.status) == Outcome.Pass
    ensures OtherFailed(l) <==> l.Event? && !EqIgnoreCase(Trim(l.mode), "default") && Tally(l.status) == Outcome.Fail
  {
    assert Lower("default") == "default";
    hide Lower, Trim;
  }

  /** After a completed run each artifact is visible exactly if its own stage's command
      succeeded, or nothing was run. */
  lemma ArtifactGates(args: Args, succeeds: StageName -> bool, a: Artifacts)
    ensures var ctx := GatedContext(args, CompletedStages(args, succeeds), a);
      var open := (name: StageName) => args.aggregateOnly || succeeds(name);
      && ctx.manifest == a.manifest && ctx.reviewThreshold == args.reviewThreshold
      && ctx.dossiers == (if open(FailureDossiers) then a.dossiers else map[])
      && ctx.repairs == (if open(AutoRepairFullCorpus) then a.repairs else map[])
      && ctx.scenarios == (if open(ScenarioSuite) then a.scenarios else map[])
      && ctx.providers == (if open(ProviderCompatMatrix) then a.providers else map[])
  {
    var n := args.shards;
    ReportStages(args);
    hide CompletedStages, StagePassed, Plan, ConformanceOk;
    if !args.aggregateOnly {
      PlannedStagePassed(args, succeeds, n + 1);
      PlannedStagePassed(args, succeeds, n + 2);
      PlannedStagePassed(args, succeeds, n + 3);
      PlannedStagePassed(args, succeeds, n + 4);
    }
  }

  lemma ReportStages(args: Args)
    ensures var n, plan := args.shards, Plan(args);
      && n + 4 < |plan| && plan[n + 1] == FailureDossiers && plan[n + 2] == ProviderCompatMatrix
      && plan[n + 3] == ScenarioSuite && plan[n + 4] == AutoRepairFullCorpus
  {
  }

  /** Which commands a run means to execute: refreshing the queue, every shard, the four
      reports, and the differential suites asked for. */
  lemma PlannedIff(args: Args, name: StageName)
    ensures name in Plan(args) <==>
      match name
      case ConformanceShard(i) => i < args.shards
      case CommandPipeline => false
      case DifferentialSuite => false
      case DiffNpm => args.runDiff && args.runNpmDiff
      case DiffOfficial => args.runDiff
      case DiffCommunity => args.runDiff
      case DiffThirdparty => args.runDiff
      case _ => true
  {
    var shards := ShardPlan(args.shards);
    assert name in shards <==> name.ConformanceShard? && name.index < args.shards by {
      if name.ConformanceShard? && name.index < args.shards { assert shards[name.index] == name; }
    }
  }

  /** The report lists one assessment per candidate, by id. */
  lemma ReportInOrder(args: Args, stages: seq<Stage>, a: Artifacts, pool: seq<Candidate>)
    ensures var report := Assess(args, stages, a, pool);
      && multiset(report) == multiset(Map(pool, item => ClassifyItem(item, GatedContext(args, stages, a))))
      && forall i, j :: 0 <= i < j < |report| ==> StrLe(report[i].id, report[j].id)
  {
    hide ClassifyItem, GatedContext, StrLe, SortBy;
    var all := Map(pool, item => ClassifyItem(item, GatedContext(args, stages, a)));
    StrLeComparator();
    SortPermutes(all, ById);
    SortSorts(all, ById);
    var report := Assess(args, stages, a, pool);
    forall i, j | 0 <= i < j < |report| ensures StrLe(report[i].id, report[j].id) {
      assert ById(report[i], report[j]);
    }
  }
}
