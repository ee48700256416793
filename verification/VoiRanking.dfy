/** What the rows of a probe plan mean: how they are ordered, what makes a score rise and
    fall, and what each reason for leaving a candidate out says about the budgets. */
module VoiRanking {
  import opened Reals
  import opened Sequences
  import opened Sorting
  import opened Text
  import opened VoiScheduler
  import opened Wrappers

  // ---- the order of the rows ----

  function CandidateOf(row: Row): Candidate { row.candidate }

  /** The rows of a plan are the candidates by score descending, then by utility
      descending, then by stage, each candidate once. */
  lemma RowsOrdered(hs: seq<Hotspot>, safeMode: bool, b: Budget)
    ensures var rows := BuildPlan(hs, safeMode, b).rows;
      && multiset(Map(rows, CandidateOf)) == multiset(Candidates(hs))
      && forall i, j :: 0 <= i < j < |rows| ==>
           var x, y := rows[i].candidate, rows[j].candidate;
           && rows[i].rank == i + 1 && x.voi >= y.voi
           && (x.voi == y.voi ==> x.utility >= y.utility)
           && (x.voi == y.voi && x.utility == y.utility ==> StrLe(x.stage, y.stage))
  {
    hide SortBy, PlanOf, Candidates, StrLe, DiagnosticStage;
    var ranked := SortBy(Candidates(hs), RankLe);
    var rows := BuildPlan(hs, safeMode, b).rows;
    RankComparator();
    SortSorts(Candidates(hs), RankLe);
    SortPermutes(Candidates(hs), RankLe);
    PlanRows(ranked, DiagnosticStage(safeMode, ranked), safeMode, b);
    assert Map(rows, CandidateOf) == ranked;
    forall i, j | 0 <= i < j < |rows|
      ensures rows[i].rank == i + 1 && RankLe(rows[i].candidate, rows[j].candidate)
    {
      assert RankLe(ranked[i], ranked[j]);
    }
  }

  /** Every hotspot entry with a stage is a candidate, and nothing else is. */
  lemma {:induction false} CandidatesAreEntries(hs: seq<Hotspot>)
    ensures |Candidates(hs)| == |Places(hs, (h: Hotspot) => h.stage.Some?)|
    ensures forall x :: x in Candidates(hs) <==> exists i :: 0 <= i < |hs| && FromHotspot(hs[i]) == Some(x)
  {
    hide FromHotspot;
    if hs != [] {
      CandidatesAreEntries(hs[1..]);
      StageDecides(hs[0]);
      PlacesHead(hs, (h: Hotspot) => h.stage.Some?);
      forall x ensures x in Candidates(hs) <==> exists i :: 0 <= i < |hs| && FromHotspot(hs[i]) == Some(x) {
        EntryOfHead(hs, x);
        if i :| 0 <= i < |hs| && FromHotspot(hs[i]) == Some(x) { assert i > 0 ==> hs[1..][i - 1] == hs[i]; }
      }
    }
  }

  lemma StageDecides(h: Hotspot)
    ensures FromHotspot(h).Some? <==> h.stage.Some?
  {
  }

  lemma EntryOfHead(hs: seq<Hotspot>, x: Candidate)
    requires hs != []
    ensures x in Candidates(hs) <==> FromHotspot(hs[0]) == Some(x) || x in Candidates(hs[1..])
    ensures (exists i :: 0 <= i < |hs[1..]| && FromHotspot(hs[1..][i]) == Some(x)) ==>
            exists i :: 0 <= i < |hs| && FromHotspot(hs[i]) == Some(x)
  {
    hide FromHotspot;
    if i :| 0 <= i < |hs[1..]| && FromHotspot(hs[1..][i]) == Some(x) { assert hs[i + 1] == hs[1..][i]; }
  }

  lemma PlacesHead<T>(s: seq<T>, f: T -> bool)
    requires s != []
    ensures |Places(s, f)| == |Places(s[1..], f)| + if f(s[0]) then 1 else 0
  {
    CountIsPlaces(s, f);
    CountIsPlaces(s[1..], f);
    CountHead(s, f);
  }

  lemma {:induction false} CountHead<T>(s: seq<T>, f: T -> bool)
    requires s != []
    ensures Count(s, f) == Count(s[1..], f) + if f(s[0]) then 1 else 0
    decreases |s|
  {
    if |s| > 1 {
      var n := |s| - 1;
      CountHead(s[..n], f);
      assert s[..n][1..] == s[1..][..n - 1];
    }
  }

  // ---- the score ----

  /** A missing number reads as its default, one out of range as the nearest in range, and
      a PMU multiplier below 1 as none. */
  lemma ReadAs(h: Hotspot)
    requires h.stage.Some?
    ensures var read := FromHotspot(h);
      exists ev, confidence, pmu, latency ::
        && read == Some(Scored(h.stage.value, ev, confidence, pmu, latency))
        && InRange(ev, confidence, pmu, latency)
        && Nearest(ev, GetOr(h.evScore, 0.0), 0.0, None) && Nearest(latency, GetOr(h.turnLatencyMs, 0.0), 0.0, None)
        && Nearest(confidence, GetOr(h.confidence, 0.5), 0.0, Some(1.0))
        && Nearest(pmu, GetOr(h.pmuMultiplier, 1.0), 1.0, Some(3.0))
  {
    hide ProbeCost, BaseProbeCost, Scored;
    var pmu := Clamp(GetOr(h.pmuMultiplier, 1.0), 1.0, 3.0);
    var ev, latency := Max(GetOr(h.evScore, 0.0), 0.0), Max(GetOr(h.turnLatencyMs, 0.0), 0.0);
    var confidence := Clamp(GetOr(h.confidence, 0.5), 0.0, 1.0);
    NoPressureBelowOne(h.stage.value, ev, confidence, GetOr(h.pmuMultiplier, 1.0), latency);
    assert FromHotspot(h) == Some(Scored(h.stage.value, ev, confidence, pmu, latency));
  }

  ghost predicate InRange(ev: real, confidence: real, pmu: real, latency: real) {
    0.0 <= ev && 0.0 <= confidence <= 1.0 && 1.0 <= pmu <= 3.0 && 0.0 <= latency
  }

  /** `x` is the number from `lo` to `hi` nearest to `raw`. */
  ghost predicate Nearest(x: real, raw: real, lo: real, hi: Option<real>) {
    if raw < lo then x == lo else if hi.Some? && raw > hi.value then x == hi.value else x == raw
  }

  lemma NoPressureBelowOne(stage: string, ev: real, confidence: real, pmu: real, latency: real)
    ensures Scored(stage, ev, confidence, Clamp(pmu, 0.5, 3.0), latency)
         == Scored(stage, ev, confidence, Clamp(pmu, 1.0, 3.0), latency)
  {
    var low, high := Clamp(pmu, 0.5, 3.0), Clamp(pmu, 1.0, 3.0);
    assert Max(low - 1.0, 0.0) == Max(high - 1.0, 0.0);
    SameCost(stage, low, high);
    hide ProbeCost;
  }

  lemma SameCost(stage: string, low: real, high: real)
    requires Max(low - 1.0, 0.0) == Max(high - 1.0, 0.0)
    ensures ProbeCost(stage, low) == ProbeCost(stage, high)
  {
  }

  /** In range, the score is utility per millisecond of cost. Utility is nothing for a
      hotspot that is certain, costs its users nothing and shows no pressure; each
      millisecond of latency adds 4, each unit of pressure 12, and each part of
      uncertainty one more than the expected value. */
  lemma ScoreLaws(stage: string, ev: real, confidence: real, pmu: real, latency: real, more: real)
    requires InRange(ev, confidence, pmu, latency) && 0.0 <= more
    ensures var x := Scored(stage, ev, confidence, pmu, latency);
      && x.voi * x.cost == x.utility >= 0.0
      && Scored(stage, ev, 1.0, 1.0, 0.0).utility == 0.0
      && Scored(stage, ev, confidence, pmu, latency + more).utility == x.utility + more * 4.0
      && Scored(stage, ev, confidence, pmu, latency + more).cost == x.cost
      && (pmu + more <= 3.0 ==> Scored(stage, ev, confidence, pmu + more, latency).utility == x.utility + more * 12.0)
      && (more <= confidence ==>
          var y := Scored(stage, ev, confidence - more, pmu, latency);
          y.utility == x.utility + more * (ev + 1.0) && y.cost == x.cost)
  {
    hide Scored, ProbeCost;
    PartsInRange(stage, ev, confidence, pmu, latency);
    PartsInRange(stage, ev, 1.0, 1.0, 0.0);
    PartsInRange(stage, ev, confidence, pmu, latency + more);
    if pmu + more <= 3.0 { PartsInRange(stage, ev, confidence, pmu + more, latency); }
    if more <= confidence {
      PartsInRange(stage, ev, confidence - more, pmu, latency);
      assert (1.0 - (confidence - more)) * (ev + 1.0) == (1.0 - confidence) * (ev + 1.0) + more * (ev + 1.0);
    }
  }

  lemma PartsInRange(stage: string, ev: real, confidence: real, pmu: real, latency: real)
    requires InRange(ev, confidence, pmu, latency)
    ensures var x := Scored(stage, ev, confidence, pmu, latency);
      && x.utility == (1.0 - confidence) * (ev + 1.0) + latency * 4.0 + (pmu - 1.0) * 12.0 >= 0.0
      && x.cost == ProbeCost(stage, pmu) && x.voi * x.cost == x.utility
  {
    hide ProbeCost, Clamp, Max, Min, BaseProbeCost;
    var x := Scored(stage, ev, confidence, pmu, latency);
    Positive(1.0 - confidence, ev + 1.0);
    PerCost(x.utility, x.cost);
  }

  lemma Positive(a: real, b: real)
    requires 0.0 <= a && 0.0 <= b
    ensures 0.0 <= a * b
  {
  }

  lemma PerCost(utility: real, cost: real)
    requires cost >= 18.0
    ensures utility / Max(cost, 1.0) * cost == utility
  {
  }

  /** More latency, more uncertainty and, at the same cost, more pressure rank higher. */
  lemma ScoreRises(x: Candidate, y: Candidate)
    requires x.cost > 0.0 && x.cost == y.cost && x.utility < y.utility
    requires x.voi * x.cost == x.utility && y.voi * y.cost == y.utility
    ensures x.voi < y.voi && !RankLe(x, y) && RankLe(y, x)
  {
    hide StrLe;
    assert (y.voi - x.voi) * x.cost > 0.0;
  }

  /** The cost is the base cost of the stage without pressure, half as much again for
      each unit of pressure, and so at most twice the base. */
  lemma CostLaws(stage: string, pmu: real)
    ensures ProbeCost(stage, 1.0) == BaseProbeCost(stage) && ProbeCost(stage, 3.0) == 2.0 * ProbeCost(stage, 1.0)
    ensures pmu <= 1.0 ==> ProbeCost(stage, pmu) == ProbeCost(stage, 1.0)
    ensures pmu >= 3.0 ==> ProbeCost(stage, pmu) == ProbeCost(stage, 3.0)
    ensures 1.0 <= pmu <= 3.0 ==> 2.0 * ProbeCost(stage, pmu) == ProbeCost(stage, 1.0) * (1.0 + pmu)
  {
    var base := BaseProbeCost(stage);
    assert 1.0 <= pmu <= 3.0 ==> Clamp(1.0 + Max(pmu - 1.0, 0.0) * 0.5, 0.8, 2.0) == 1.0 + (pmu - 1.0) * 0.5;
    assert 2.0 * (base * (1.0 + (pmu - 1.0) * 0.5)) == base * (1.0 + pmu);
  }

  /** Which probes are dear: marshal is the cheapest, then stages without a probe of their
      own, policy, io, execute, schedule, and queue, in steps of at least two milliseconds. */
  lemma CostOrder(other: string, pmu: real)
    requires other !in {"queue", "schedule", "execute", "policy", "io", "marshal"}
    ensures var cost := (stage: string) => ProbeCost(stage, pmu);
      && cost("marshal") + 4.0 <= cost(other) && cost(other) + 2.0 <= cost("policy")
      && cost("policy") + 4.0 <= cost("io") && cost("io") + 6.0 <= cost("execute")
      && cost("execute") + 2.0 <= cost("schedule") && cost("schedule") + 6.0 <= cost("queue")
      && cost("queue") <= 84.0
  {
    var m := Clamp(1.0 + Max(pmu - 1.0, 0.0) * 0.5, 0.8, 2.0);
    assert 1.0 <= m <= 2.0;
  }

  /** The gain expected of a probe: utility per millisecond and one more, at most 5. */
  lemma GainLaws(stage: string, ev: real, confidence: real, pmu: real, latency: real)
    requires InRange(ev, confidence, pmu, latency)
    ensures var x := Scored(stage, ev, confidence, pmu, latency);
      var longer := x.cost + 1.0;
      if x.utility <= 5.0 * longer then x.expectedGain * longer == x.utility else x.expectedGain == 5.0
  {
    hide Scored, ProbeCost;
    PartsInRange(stage, ev, confidence, pmu, latency);
    GainIs(Scored(stage, ev, confidence, pmu, latency), stage, ev, confidence, pmu, latency);
  }

  lemma GainIs(x: Candidate, stage: string, ev: real, confidence: real, pmu: real, latency: real)
    requires x == Scored(stage, ev, confidence, pmu, latency) && x.utility >= 0.0 && x.cost >= 18.0
    ensures var longer := x.cost + 1.0;
      if x.utility <= 5.0 * longer then x.expectedGain * longer == x.utility else x.expectedGain == 5.0
  {
    hide ProbeCost, Clamp;
    assert x.expectedGain == Clamp(x.utility / (x.cost + 1.0), 0.0, 5.0);
    hide Scored;
    ClampedQuotient(x.utility, x.cost + 1.0);
  }

  lemma ClampedQuotient(u: real, d: real)
    requires u >= 0.0 && d > 0.0
    ensures var gain := Clamp(u / d, 0.0, 5.0); if u <= 5.0 * d then gain * d == u else gain == 5.0
  {
    var q := u / d;
    assert q * d == u;
    assert (5.0 - q) * d == 5.0 * d - u;
    assert 0.0 <= q;
  }

  // ---- the reasons ----

  /** What each outcome of an active plan says: the cap was reached by the selections
      before it, or the candidate costs more than they left, or it is useless, or it is
      selected, and exactly in that order of precedence. */
  lemma ReasonsMean(cands: seq<Candidate>, b: Budget, k: nat)
    requires Costly(cands) && k < |cands|
    ensures var p := PlanOf(cands, None, false, b);
      var before := Selection(p)[..k];
      var full, fits := PickCount(before) >= b.maxExperiments, CostOf(cands, before) + cands[k].cost <= b.maxOverheadMs;
      && (p.rows[k].skipReason == Some(MaxExperimentsReached) <==> full)
      && (p.rows[k].skipReason == Some(BudgetExceeded) <==> !full && !fits)
      && (p.rows[k].skipReason == Some(LowExpectedUtility) <==> !full && fits && cands[k].utility <= 0.01)
      && (p.rows[k].selected <==> !full && fits && cands[k].utility > 0.01)
  {
    hide PlanOf, PickCount, CostOf;
    var p, q := PlanOf(cands, None, false, b), PlanOf(cands[..k], None, false, b);
    RowDecision(cands, k, None, false, b);
    PlanPrefix(cands, k, None, false, b);
    PlanWithinBudgets(cands[..k], None, false, b);
    assert Selection(p)[..k] == Selection(q) by {
      assert forall i :: 0 <= i < k ==> p.rows[i] == p.rows[..k][i];
    }
    CostPrefix(cands[..k], cands[k..], Selection(q));
    assert cands[..k] + cands[k..] == cands;
  }

  /** In safe mode every candidate but the diagnostic one meets the guardrail, and that
      one is left out only for its cost. */
  lemma SafeReasonsMean(cands: seq<Candidate>, b: Budget, k: nat)
    requires Costly(cands) && StagesDistinct(cands) && k < |cands|
    ensures var p := PlanOf(cands, DiagnosticStage(true, cands), true, b);
      var diagnostic := forall x :: x in cands ==>
        cands[k].cost < x.cost || (cands[k].cost == x.cost && StrLe(cands[k].stage, x.stage));
      && (p.rows[k].skipReason == Some(SafeModeGuardrail) <==> !diagnostic)
      && (p.rows[k].skipReason == Some(DiagnosticBudgetExceeded) <==> diagnostic && cands[k].cost > b.maxOverheadMs)
      && (p.rows[k].selected <==> diagnostic && cands[k].cost <= b.maxOverheadMs)
  {
    hide PlanOf, StrLe, Cheapest;
    CheapestIsMinimum(cands);
    var stage := Cheapest(cands).stage;
    SafeSelection(cands, stage, b);
    RowDecision(cands, k, Some(stage), true, b);
    var m :| 0 <= m < |cands| && cands[m] == Cheapest(cands);
    StrLeComparator();
    assert cands[k] in cands && (cands[k].stage == stage <==> k == m);
  }
}
