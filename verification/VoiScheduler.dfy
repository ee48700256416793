/** The value-of-information probe scheduler (`build_voi_scheduler_plan_at`):
    hotspot entries become candidates, candidates are ranked, and a greedy loop
    picks probes under a time budget and an experiment budget, or, in safe mode,
    the single cheapest diagnostic probe. `f64` is modelled by `real`. */
module VoiScheduler {
  import opened Reals
  import opened Sequences
  import opened Sorting
  import opened Text
  import opened Wrappers

  function GetOr(x: Option<real>, default: real): real {
    match x
    case Some(v) => v
    case None => default
  }

  /** The numeric fields of a hotspot entry; each may be absent. */
  datatype Hotspot = Hotspot(
    stage: Option<string>,
    evScore: Option<real>,
    confidence: Option<real>,
    pmuMultiplier: Option<real>,
    turnLatencyMs: Option<real>)

  datatype Candidate = Candidate(
    stage: string,
    utility: real,
    uncertaintyReduction: real,
    userImpact: real,
    pressureBonus: real,
    expectedGain: real,
    cost: real,
    voi: real)

  function BaseProbeCost(stage: string): real {
    match stage
    case "queue" => 42.0
    case "schedule" => 36.0
    case "execute" => 34.0
    case "policy" => 24.0
    case "io" => 28.0
    case "marshal" => 18.0
    case _ => 22.0
  }

  /** `stage_probe_cost_ms`: never below the base cost and never above twice it. */
  function ProbeCost(stage: string, pmuMultiplier: real): (cost: real)
    ensures 18.0 <= BaseProbeCost(stage) <= cost <= 2.0 * BaseProbeCost(stage)
  {
    BaseProbeCost(stage) * Clamp(1.0 + Max(pmuMultiplier - 1.0, 0.0) * 0.5, 0.8, 2.0)
  }

  /** The candidate for a stage, from numbers in range. */
  function Scored(stage: string, ev: real, confidence: real, pmu: real, latency: real): Candidate {
    var uncertainty := (1.0 - confidence) * (ev + 1.0);
    var impact := latency * 4.0;
    var pressure := Max(pmu - 1.0, 0.0) * 12.0;
    var utility := uncertainty + impact + pressure;
    var cost := ProbeCost(stage, pmu);
    Candidate(stage, utility, uncertainty, impact, pressure,
              Clamp(utility / (cost + 1.0), 0.0, 5.0), cost, utility / Max(cost, 1.0))
  }

  function FromHotspot(h: Hotspot): Option<Candidate> {
    if h.stage.None? then None
    else
      var ev := Max(GetOr(h.evScore, 0.0), 0.0);
      var confidence := Clamp(GetOr(h.confidence, 0.5), 0.0, 1.0);
      var pmu := Clamp(GetOr(h.pmuMultiplier, 1.0), 0.5, 3.0);
      var latency := Max(GetOr(h.turnLatencyMs, 0.0), 0.0);
      Some(Scored(h.stage.value, ev, confidence, pmu, latency))
  }

  /** `filter_map` over the hotspot entries. */
  function Candidates(hs: seq<Hotspot>): seq<Candidate> {
    if hs == [] then []
    else
      var first := FromHotspot(hs[0]);
      if first.Some? then [first.value] + Candidates(hs[1..]) else Candidates(hs[1..])
  }

  /** `rank_voi_candidates`: score descending, utility descending, stage ascending. */
  predicate RankLe(a: Candidate, b: Candidate) {
    a.voi > b.voi
    || (a.voi == b.voi && (a.utility > b.utility || (a.utility == b.utility && StrLe(a.stage, b.stage))))
  }

  predicate DiagnosticLe(a: Candidate, b: Candidate) {
    a.cost < b.cost || (a.cost == b.cost && StrLe(a.stage, b.stage))
  }

  /** `min_by`, which keeps the earliest minimum. */
  function Cheapest(cands: seq<Candidate>): Candidate
    requires cands != []
  {
    if |cands| == 1 then cands[0]
    else
      var best, last := Cheapest(cands[..|cands| - 1]), cands[|cands| - 1];
      if DiagnosticLe(best, last) then best else last
  }

  function DiagnosticStage(safeMode: bool, cands: seq<Candidate>): Option<string> {
    if safeMode && cands != [] then Some(Cheapest(cands).stage) else None
  }

  // ---- the selection loop ----

  datatype SkipReason =
    DiagnosticBudgetExceeded | SafeModeGuardrail | MaxExperimentsReached | BudgetExceeded | LowExpectedUtility

  datatype Budget = Budget(maxOverheadMs: real, maxExperiments: nat)

  datatype Row = Row(candidate: Candidate, rank: nat, selected: bool, skipReason: Option<SkipReason>)

  datatype Plan = Plan(rows: seq<Row>, remaining: real, used: real, count: nat)

  /** Why a candidate is not taken now; `None` if it is taken. */
  function Decide(x: Candidate, diagnostic: Option<string>, safeMode: bool, b: Budget, p: Plan): Option<SkipReason> {
    if safeMode then
      if diagnostic == Some(x.stage) then
        if x.cost <= p.remaining then None else Some(DiagnosticBudgetExceeded)
      else Some(SafeModeGuardrail)
    else if p.count >= b.maxExperiments then Some(MaxExperimentsReached)
    else if x.cost > p.remaining then Some(BudgetExceeded)
    else if x.utility <= 0.01 then Some(LowExpectedUtility)
    else None
  }

  function Extend(p: Plan, x: Candidate, decision: Option<SkipReason>): Plan {
    var rows := p.rows + [Row(x, |p.rows| + 1, decision.None?, decision)];
    if decision.None? then Plan(rows, Max(p.remaining - x.cost, 0.0), p.used + x.cost, p.count + 1)
    else p.(rows := rows)
  }

  function PlanOf(cands: seq<Candidate>, diagnostic: Option<string>, safeMode: bool, b: Budget): (p: Plan)
    ensures |p.rows| == |cands|
  {
    if cands == [] then Plan([], b.maxOverheadMs, 0.0, 0)
    else
      var before := PlanOf(cands[..|cands| - 1], diagnostic, safeMode, b);
      var x := cands[|cands| - 1];
      Extend(before, x, Decide(x, diagnostic, safeMode, b, before))
  }

  lemma EmptyPlan(diagnostic: Option<string>, safeMode: bool, b: Budget)
    ensures PlanOf([], diagnostic, safeMode, b) == Plan([], b.maxOverheadMs, 0.0, 0)
  {
  }

  method SelectProbes(cands: seq<Candidate>, diagnostic: Option<string>, safeMode: bool, b: Budget)
    returns (p: Plan)
    ensures p == PlanOf(cands, diagnostic, safeMode, b)
  {
    var remaining, used, count := b.maxOverheadMs, 0.0, 0;
    var rows: seq<Row> := [];
    EmptyPlan(diagnostic, safeMode, b);
    assert cands[..0] == [];
    hide PlanOf;
    for i := 0 to |cands|
      invariant Plan(rows, remaining, used, count) == PlanOf(cands[..i], diagnostic, safeMode, b)
      invariant |rows| == i
    {
      var x := cands[i];
      var selected := false;
      var skip: Option<SkipReason> := None;
      if safeMode {
        if diagnostic.Some? && diagnostic.value == x.stage {
          if x.cost <= remaining { selected := true; } else { skip := Some(DiagnosticBudgetExceeded); }
        } else {
          skip := Some(SafeModeGuardrail);
        }
      } else if count >= b.maxExperiments {
        skip := Some(MaxExperimentsReached);
      } else if x.cost > remaining {
        skip := Some(BudgetExceeded);
      } else if x.utility <= 0.01 {
        skip := Some(LowExpectedUtility);
      } else {
        selected := true;
      }
      PlanStep(cands, i, diagnostic, safeMode, b);
      if selected {
        remaining := Max(remaining - x.cost, 0.0);
        used := used + x.cost;
        count := count + 1;
      }
      rows := rows + [Row(x, i + 1, selected, skip)];
    }
    assert cands[..|cands|] == cands;
    p := Plan(rows, remaining, used, count);
  }

  /** The whole planner, from hotspot entries to rows. */
  function BuildPlan(hs: seq<Hotspot>, safeMode: bool, b: Budget): Plan {
    var ranked := SortBy(Candidates(hs), RankLe);
    PlanOf(ranked, DiagnosticStage(safeMode, ranked), safeMode, b)
  }

  // ---- budgets and rows, in both modes ----

  ghost predicate Costly(cands: seq<Candidate>) {
    forall i :: 0 <= i < |cands| ==> cands[i].cost >= 18.0
  }

  lemma {:induction false} CandidatesCostly(hs: seq<Hotspot>)
    ensures Costly(Candidates(hs))
  {
    if hs != [] { CandidatesCostly(hs[1..]); }
  }

  /** Total cost of the candidates a choice vector picks. */
  function CostOf(cands: seq<Candidate>, picks: seq<bool>): real
    requires |picks| <= |cands|
  {
    if picks == [] then 0.0
    else
      var n := |picks| - 1;
      CostOf(cands, picks[..n]) + if picks[n] then cands[n].cost else 0.0
  }

  function PickCount(picks: seq<bool>): nat {
    if picks == [] then 0 else PickCount(picks[..|picks| - 1]) + if picks[|picks| - 1] then 1 else 0
  }

  function Selection(p: Plan): (r: seq<bool>)
    ensures |r| == |p.rows|
  {
    seq(|p.rows|, i requires 0 <= i < |p.rows| => p.rows[i].selected)
  }

  lemma {:induction false} CostPrefix(cands: seq<Candidate>, more: seq<Candidate>, picks: seq<bool>)
    requires |picks| <= |cands|
    ensures CostOf(cands + more, picks) == CostOf(cands, picks)
  {
    if picks != [] { CostPrefix(cands, more, picks[..|picks| - 1]); }
  }

  /** Every row states its candidate, its rank and either selection or a reason;
      used plus remaining is the budget; what is used is the cost of what was
      selected and stays within the budget, as does the count in active mode. */
  lemma {:induction false} PlanWithinBudgets(
    cands: seq<Candidate>, diagnostic: Option<string>, safeMode: bool, b: Budget)
    requires Costly(cands)
    ensures var p := PlanOf(cands, diagnostic, safeMode, b);
            && |p.rows| == |cands|
            && (forall i :: 0 <= i < |cands| ==>
                  && p.rows[i].candidate == cands[i] && p.rows[i].rank == i + 1
                  && (p.rows[i].selected <==> p.rows[i].skipReason.None?))
            && p.used + p.remaining == b.maxOverheadMs
            && p.used == CostOf(cands, Selection(p)) && p.count == PickCount(Selection(p))
            && 0.0 <= p.used <= Max(b.maxOverheadMs, 0.0)
            && (!safeMode ==> p.count <= b.maxExperiments)
  {
    hide PlanOf, CostOf, PickCount;
    PlanRows(cands, diagnostic, safeMode, b);
    PlanSums(cands, diagnostic, safeMode, b);
    PlanUses(cands, diagnostic, safeMode, b);
  }

  lemma {:induction false} PlanRows(cands: seq<Candidate>, diagnostic: Option<string>, safeMode: bool, b: Budget)
    ensures var p := PlanOf(cands, diagnostic, safeMode, b);
      forall i :: 0 <= i < |cands| ==>
        && p.rows[i].candidate == cands[i] && p.rows[i].rank == i + 1
        && (p.rows[i].selected <==> p.rows[i].skipReason.None?)
  {
    if cands != [] {
      var n := |cands| - 1;
      PlanRows(cands[..n], diagnostic, safeMode, b);
      PlanStep(cands, n, diagnostic, safeMode, b);
      hide PlanOf, Decide;
      assert cands[..n + 1] == cands;
      assert forall i :: 0 <= i < n ==> cands[..n][i] == cands[i];
    }
  }

  lemma {:induction false} PlanSums(cands: seq<Candidate>, diagnostic: Option<string>, safeMode: bool, b: Budget)
    ensures var p := PlanOf(cands, diagnostic, safeMode, b);
      p.used == CostOf(cands, Selection(p)) && p.count == PickCount(Selection(p))
  {
    if cands != [] {
      var n := |cands| - 1;
      PlanSums(cands[..n], diagnostic, safeMode, b);
      PlanStep(cands, n, diagnostic, safeMode, b);
      hide PlanOf, Selection, Decide, CostOf, PickCount;
      var before := PlanOf(cands[..n], diagnostic, safeMode, b);
      var decision := Decide(cands[n], diagnostic, safeMode, b, before);
      SelectionExtends(before, cands[n], decision);
      CostExtends(cands, n, Selection(before), decision.None?);
      assert cands[..n + 1] == cands;
    }
  }

  lemma {:induction false} PlanUses(cands: seq<Candidate>, diagnostic: Option<string>, safeMode: bool, b: Budget)
    requires Costly(cands)
    ensures var p := PlanOf(cands, diagnostic, safeMode, b);
      && p.used + p.remaining == b.maxOverheadMs && 0.0 <= p.used <= Max(b.maxOverheadMs, 0.0)
      && (!safeMode ==> p.count <= b.maxExperiments)
  {
    if cands != [] {
      var n := |cands| - 1;
      PlanUses(cands[..n], diagnostic, safeMode, b);
      PlanStep(cands, n, diagnostic, safeMode, b);
      hide PlanOf;
      assert cands[..n + 1] == cands;
    }
  }

  lemma PlanStep(cands: seq<Candidate>, n: nat, diagnostic: Option<string>, safeMode: bool, b: Budget)
    requires n < |cands|
    ensures var before := PlanOf(cands[..n], diagnostic, safeMode, b);
      PlanOf(cands[..n + 1], diagnostic, safeMode, b)
      == Extend(before, cands[n], Decide(cands[n], diagnostic, safeMode, b, before))
  {
    assert cands[..n + 1][..n] == cands[..n];
  }

  lemma SelectionExtends(p: Plan, x: Candidate, decision: Option<SkipReason>)
    ensures Selection(Extend(p, x, decision)) == Selection(p) + [decision.None?]
  {
  }

  lemma CostExtends(cands: seq<Candidate>, n: nat, picks: seq<bool>, pick: bool)
    requires n < |cands| && |picks| == n
    ensures CostOf(cands, picks + [pick]) == CostOf(cands[..n], picks) + if pick then cands[n].cost else 0.0
    ensures PickCount(picks + [pick]) == PickCount(picks) + if pick then 1 else 0
  {
    assert (picks + [pick])[..n] == picks;
    assert cands == cands[..n] + cands[n..];
    CostPrefix(cands[..n], cands[n..], picks);
  }

  /** The plan for a prefix of the candidates is the prefix of the plan. */
  lemma {:induction false} PlanPrefix(
    cands: seq<Candidate>, k: nat, diagnostic: Option<string>, safeMode: bool, b: Budget)
    requires Costly(cands) && k <= |cands|
    ensures var p, q := PlanOf(cands, diagnostic, safeMode, b), PlanOf(cands[..k], diagnostic, safeMode, b);
            |q.rows| == k <= |p.rows| && p.rows[..k] == q.rows && p.remaining <= q.remaining && p.count >= q.count
    decreases |cands|
  {
    if k == |cands| {
      assert cands[..k] == cands;
    } else {
      hide PlanOf, Decide;
      var n := |cands| - 1;
      PlanPrefix(cands[..n], k, diagnostic, safeMode, b);
      PlanUses(cands[..n], diagnostic, safeMode, b);
      PlanUses(cands, diagnostic, safeMode, b);
      PlanStep(cands, n, diagnostic, safeMode, b);
      assert cands[..n][..k] == cands[..k] && cands[..n + 1] == cands;
    }
  }

  /** Row `k` records the decision made on the plan of the first `k` candidates. */
  lemma RowDecision(cands: seq<Candidate>, k: nat, diagnostic: Option<string>, safeMode: bool, b: Budget)
    requires Costly(cands) && k < |cands|
    ensures var p, q := PlanOf(cands, diagnostic, safeMode, b), PlanOf(cands[..k], diagnostic, safeMode, b);
            k < |p.rows| && p.rows[k].skipReason == Decide(cands[k], diagnostic, safeMode, b, q)
            && p.rows[k].selected == p.rows[k].skipReason.None?
  {
    PlanPrefix(cands, k + 1, diagnostic, safeMode, b);
    PlanPrefix(cands, k, diagnostic, safeMode, b);
    assert cands[..k + 1][..k] == cands[..k];
    var p, q := PlanOf(cands, diagnostic, safeMode, b), PlanOf(cands[..k + 1], diagnostic, safeMode, b);
    assert p.rows[k] == p.rows[..k + 1][k];
  }

  /** Nothing useful still fits: a candidate left out of an active plan has utility
      at most 0.01, or costs more than what remains, or the cap was hit. */
  lemma NothingUsefulFits(cands: seq<Candidate>, b: Budget, k: nat)
    requires Costly(cands) && k < |cands|
    ensures var p := PlanOf(cands, None, false, b);
            k < |p.rows| && (!p.rows[k].selected && cands[k].utility > 0.01 ==>
              cands[k].cost > p.remaining || p.count >= b.maxExperiments)
  {
    RowDecision(cands, k, None, false, b);
    PlanPrefix(cands, k, None, false, b);
  }

  /** A plan anybody could propose within the same two budgets, using only
      candidates above the utility floor. */
  ghost predicate Feasible(cands: seq<Candidate>, picks: seq<bool>, b: Budget) {
    && |picks| == |cands|
    && CostOf(cands, picks) <= b.maxOverheadMs
    && PickCount(picks) <= b.maxExperiments
    && forall i :: 0 <= i < |picks| && picks[i] ==> cands[i].utility > 0.01
  }

  lemma {:induction false} PicksGrow(cands: seq<Candidate>, picks: seq<bool>, k: nat)
    requires Costly(cands) && |picks| <= |cands| && k <= |picks|
    ensures CostOf(cands, picks[..k]) <= CostOf(cands, picks)
    ensures PickCount(picks[..k]) <= PickCount(picks)
    decreases |picks|
  {
    if k == |picks| {
      assert picks[..k] == picks;
    } else {
      PicksGrow(cands, picks[..|picks| - 1], k);
      assert picks[..|picks| - 1][..k] == picks[..k];
    }
  }

  /** Where a feasible plan agrees with the greedy one up to rank `d` and differs
      there, it is the greedy plan that takes the candidate. */
  lemma GreedyWinsDifference(cands: seq<Candidate>, b: Budget, picks: seq<bool>, d: nat)
    requires Costly(cands) && Feasible(cands, picks, b) && d < |cands|
    requires var greedy := Selection(PlanOf(cands, None, false, b));
             picks[..d] == greedy[..d] && picks[d] != greedy[d]
    ensures Selection(PlanOf(cands, None, false, b))[d] && !picks[d]
  {
    hide PlanOf;
    var q := PlanOf(cands[..d], None, false, b);
    RowDecision(cands, d, None, false, b);
    PlanWithinBudgets(cands[..d], None, false, b);
    SelectionPrefix(cands, b, picks, d);
    CostOfNext(cands, picks, d);
    PicksGrow(cands, picks, d + 1);
  }

  /** A plan that agrees up to rank `d` starts with the greedy selection of the first `d`. */
  lemma SelectionPrefix(cands: seq<Candidate>, b: Budget, picks: seq<bool>, d: nat)
    requires Costly(cands) && d <= |cands| == |picks|
    requires picks[..d] == Selection(PlanOf(cands, None, false, b))[..d]
    ensures Selection(PlanOf(cands[..d], None, false, b)) == picks[..d]
  {
    hide PlanOf;
    var p, q := PlanOf(cands, None, false, b), PlanOf(cands[..d], None, false, b);
    PlanPrefix(cands, d, None, false, b);
    forall i | 0 <= i < d ensures Selection(q)[i] == picks[i] {
      assert q.rows[i] == p.rows[..d][i];
      assert picks[i] == picks[..d][i];
      assert Selection(p)[..d][i] == p.rows[i].selected;
    }
  }

  lemma CostOfNext(cands: seq<Candidate>, picks: seq<bool>, d: nat)
    requires d < |picks| == |cands|
    ensures CostOf(cands, picks[..d + 1]) == CostOf(cands[..d], picks[..d]) + if picks[d] then cands[d].cost else 0.0
    ensures PickCount(picks[..d + 1]) == PickCount(picks[..d]) + if picks[d] then 1 else 0
  {
    assert cands == cands[..d] + cands[d..];
    CostPrefix(cands[..d], cands[d..], picks[..d]);
    assert picks[..d + 1][..d] == picks[..d];
  }

  lemma {:induction false} FirstDifference(x: seq<bool>, y: seq<bool>) returns (d: nat)
    requires |x| == |y| && x != y
    ensures d < |x| && x[..d] == y[..d] && x[d] != y[d]
  {
    d := 0;
    while d < |x| && x[d] == y[d]
      invariant d <= |x| && x[..d] == y[..d]
    {
      d := d + 1;
    }
  }

  /** The active plan built from any hotspot entries is the lexicographically
      greatest feasible plan over the ranking: every other feasible plan first
      departs from it by giving up a candidate that it takes. */
  lemma ActivePlanIsGreatest(hs: seq<Hotspot>, b: Budget, picks: seq<bool>)
    requires b.maxOverheadMs >= 0.0
    requires Feasible(SortBy(Candidates(hs), RankLe), picks, b)
    ensures var greedy := Selection(BuildPlan(hs, false, b));
            && Feasible(SortBy(Candidates(hs), RankLe), greedy, b)
            && (picks == greedy
                || exists d :: 0 <= d < |picks| && d < |greedy| && picks[..d] == greedy[..d] && greedy[d] && !picks[d])
  {
    var ranked := SortBy(Candidates(hs), RankLe);
    RankedCostly(hs);
    var p := BuildPlan(hs, false, b);
    PlanWithinBudgets(ranked, None, false, b);
    forall i | 0 <= i < |ranked| && Selection(p)[i] ensures ranked[i].utility > 0.01 {
      RowDecision(ranked, i, None, false, b);
    }
    if picks != Selection(p) {
      var d := FirstDifference(picks, Selection(p));
      GreedyWinsDifference(ranked, b, picks, d);
    }
  }

  lemma RankedCostly(hs: seq<Hotspot>)
    ensures Costly(SortBy(Candidates(hs), RankLe))
  {
    var ranked := SortBy(Candidates(hs), RankLe);
    CandidatesCostly(hs);
    SortPermutes(Candidates(hs), RankLe);
    SameElements(ranked, Candidates(hs));
    forall i | 0 <= i < |ranked| ensures ranked[i].cost >= 18.0 {
      assert ranked[i] in Candidates(hs);
    }
  }

  // ---- the ranking, and independence of the entry order ----

  lemma RankComparator()
    ensures Comparator(RankLe)
    ensures forall a, b :: RankLe(a, b) && RankLe(b, a) ==> a.stage == b.stage
  {
    StrLeComparator();
  }

  ghost predicate DistinctStages(hs: seq<Hotspot>) {
    forall i, j :: 0 <= i < j < |hs| && hs[i].stage.Some? ==> hs[i].stage != hs[j].stage
  }

  lemma {:induction false} CandidateOrigin(hs: seq<Hotspot>, x: Candidate)
    requires x in Candidates(hs)
    ensures exists i :: 0 <= i < |hs| && FromHotspot(hs[i]) == Some(x)
  {
    if FromHotspot(hs[0]) != Some(x) {
      CandidateOrigin(hs[1..], x);
      var i :| 0 <= i < |hs[1..]| && FromHotspot(hs[1..][i]) == Some(x);
      assert FromHotspot(hs[i + 1]) == Some(x);
    }
  }

  lemma {:induction false} CandidatesRemoveAt(hs: seq<Hotspot>, i: nat)
    requires i < |hs|
    ensures multiset(Candidates(hs)) == multiset(Candidates(hs[..i] + hs[i + 1..]))
                                       + (if FromHotspot(hs[i]).Some?
                                           then multiset{FromHotspot(hs[i]).value} else multiset{})
  {
    var rest := hs[..i] + hs[i + 1..];
    if i > 0 {
      CandidatesRemoveAt(hs[1..], i - 1);
      assert rest[1..] == hs[1..][..i - 1] + hs[1..][i..];
    } else {
      assert rest == hs[1..];
    }
  }

  lemma {:induction false} CandidatesPermute(a: seq<Hotspot>, b: seq<Hotspot>)
    requires multiset(a) == multiset(b)
    ensures multiset(Candidates(a)) == multiset(Candidates(b))
    decreases |a|
  {
    assert |multiset(a)| == |multiset(b)|;
    if |a| > 0 {
      var i := FindHead(a, b);
      var rest := b[..i] + b[i + 1..];
      CandidatesPermute(a[1..], rest);
      CandidatesRemoveAt(b, i);
    }
  }

  /** With distinct stages the plan does not depend on the order in which the
      hotspot entries are listed. */
  lemma PlanIgnoresEntryOrder(a: seq<Hotspot>, b: seq<Hotspot>, safeMode: bool, budget: Budget)
    requires multiset(a) == multiset(b) && DistinctStages(a)
    ensures BuildPlan(a, safeMode, budget) == BuildPlan(b, safeMode, budget)
  {
    CandidatesPermute(a, b);
    RankComparator();
    forall x, y | x in Candidates(a) && y in Candidates(a) && RankLe(x, y) && RankLe(y, x) ensures x == y {
      CandidateOrigin(a, x);
      CandidateOrigin(a, y);
      var i :| 0 <= i < |a| && FromHotspot(a[i]) == Some(x);
      var j :| 0 <= j < |a| && FromHotspot(a[j]) == Some(y);
      assert a[i].stage == Some(x.stage) && a[j].stage == Some(y.stage);
      assert i == j;
    }
    SortIgnoresOrder(Candidates(a), Candidates(b), RankLe);
  }

  // ---- safe mode ----

  lemma {:induction false} CheapestIsMinimum(cands: seq<Candidate>)
    requires cands != []
    ensures Cheapest(cands) in cands
    ensures forall x :: x in cands ==> Cheapest(cands).cost <= x.cost
    ensures forall x :: x in cands && Cheapest(cands).cost == x.cost ==> StrLe(Cheapest(cands).stage, x.stage)
  {
    StrLeComparator();
    if |cands| > 1 {
      CheapestIsMinimum(cands[..|cands| - 1]);
      assert cands == cands[..|cands| - 1] + [cands[|cands| - 1]];
    }
  }

  ghost predicate StagesDistinct(cands: seq<Candidate>) {
    forall i, j :: 0 <= i < j < |cands| ==> cands[i].stage != cands[j].stage
  }

  /** Before the diagnostic stage is met nothing is selected; after it, nothing more. */
  lemma {:induction false} SafeSelection(cands: seq<Candidate>, stage: string, b: Budget)
    requires Costly(cands) && StagesDistinct(cands)
    ensures var p := PlanOf(cands, Some(stage), true, b);
            && |p.rows| == |cands|
            && (forall i :: 0 <= i < |cands| ==>
                  (p.rows[i].selected <==> cands[i].stage == stage && cands[i].cost <= b.maxOverheadMs))
            && ((forall i :: 0 <= i < |cands| ==> cands[i].stage != stage) ==>
                  p.count == 0 && p.remaining == b.maxOverheadMs)
            && p.count <= 1
  {
    if cands != [] {
      var n := |cands| - 1;
      SafeSelection(cands[..n], stage, b);
      var before := PlanOf(cands[..n], Some(stage), true, b);
      assert cands[n].stage == stage ==> forall i :: 0 <= i < n ==> cands[..n][i].stage != stage;
    }
  }

  /** In safe mode at most one probe is chosen, a chosen probe has minimum cost, and
      one is chosen exactly when some candidate fits the time budget. */
  lemma SafeModeProbe(cands: seq<Candidate>, b: Budget)
    requires Costly(cands) && StagesDistinct(cands)
    ensures var p := PlanOf(cands, DiagnosticStage(true, cands), true, b);
            && |p.rows| == |cands| && p.count == PickCount(Selection(p)) <= 1
            && (forall i, j :: 0 <= i < |cands| && 0 <= j < |cands| && p.rows[i].selected ==>
                && cands[i].cost <= cands[j].cost
                && (cands[i].cost == cands[j].cost ==> StrLe(cands[i].stage, cands[j].stage)))
            && ((exists i :: 0 <= i < |cands| && p.rows[i].selected)
                <==> exists j :: 0 <= j < |cands| && cands[j].cost <= b.maxOverheadMs)
  {
    PlanWithinBudgets(cands, DiagnosticStage(true, cands), true, b);
    if cands != [] {
      hide PlanOf, Cheapest, StrLe, PickCount, CostOf;
      var p := PlanOf(cands, DiagnosticStage(true, cands), true, b);
      CheapestIsMinimum(cands);
      var m :| 0 <= m < |cands| && cands[m] == Cheapest(cands);
      SafeSelection(cands, cands[m].stage, b);
      assert forall i :: 0 <= i < |cands| && cands[i].stage == cands[m].stage ==> i == m;
      assert forall j :: 0 <= j < |cands| ==> cands[j] in cands && cands[m].cost <= cands[j].cost;
      if j :| 0 <= j < |cands| && cands[j].cost <= b.maxOverheadMs {
        assert p.rows[m].selected;
      }
    }
  }

  lemma {:induction false} CandidatesDistinct(hs: seq<Hotspot>)
    requires DistinctStages(hs)
    ensures StagesDistinct(Candidates(hs))
  {
    if hs != [] {
      CandidatesDistinct(hs[1..]);
      if FromHotspot(hs[0]).Some? {
        forall x | x in Candidates(hs[1..]) ensures Some(x.stage) != hs[0].stage {
          CandidateOrigin(hs[1..], x);
        }
      }
    }
  }

  /** The same for the whole planner, from any hotspot entries with distinct stages. */
  lemma SafePlanFromHotspots(hs: seq<Hotspot>, b: Budget)
    requires DistinctStages(hs)
    ensures var p := BuildPlan(hs, true, b);
            && p.count == PickCount(Selection(p)) <= 1
            && (forall i, j :: 0 <= i < |p.rows| && 0 <= j < |p.rows| && p.rows[i].selected ==>
                  && p.rows[i].candidate.cost <= p.rows[j].candidate.cost
                  && (p.rows[i].candidate.cost == p.rows[j].candidate.cost ==>
                      StrLe(p.rows[i].candidate.stage, p.rows[j].candidate.stage)))
            && (p.count == 1 <==> exists j :: 0 <= j < |p.rows| && p.rows[j].candidate.cost <= b.maxOverheadMs)
  {
    hide PlanOf, SortBy, Cheapest, Candidates, StrLe;
    var ranked := SortBy(Candidates(hs), RankLe);
    var p := BuildPlan(hs, true, b);
    RankedCostly(hs);
    RankedDistinct(hs);
    SafeModeProbe(ranked, b);
    PlanWithinBudgets(ranked, DiagnosticStage(true, ranked), true, b);
    PickedSomething(Selection(p));
    assert forall i :: 0 <= i < |ranked| ==> p.rows[i].candidate == ranked[i] && Selection(p)[i] == p.rows[i].selected;
  }

  lemma RankedDistinct(hs: seq<Hotspot>)
    requires DistinctStages(hs)
    ensures StagesDistinct(SortBy(Candidates(hs), RankLe))
  {
    hide SortBy, Candidates;
    var ranked := SortBy(Candidates(hs), RankLe);
    CandidatesDistinct(hs);
    SortPermutes(Candidates(hs), RankLe);
    var stageOf := (x: Candidate) => x.stage;
    MapPermutes(Candidates(hs), ranked, stageOf);
    PermutedDistinct(Map(Candidates(hs), stageOf), Map(ranked, stageOf));
    forall i, j | 0 <= i < j < |ranked| ensures ranked[i].stage != ranked[j].stage {
      assert Map(ranked, stageOf)[i] != Map(ranked, stageOf)[j];
    }
  }

  lemma {:induction false} PickedSomething(picks: seq<bool>)
    ensures PickCount(picks) > 0 <==> exists i :: 0 <= i < |picks| && picks[i]
  {
    if picks != [] {
      PickedSomething(picks[..|picks| - 1]);
      assert forall i :: 0 <= i < |picks| - 1 ==> picks[i] == picks[..|picks| - 1][i];
    }
  }
}
