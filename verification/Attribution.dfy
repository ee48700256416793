/** Stage attribution: a record's time is split over six stages by weights chosen
    from its scenario name, stage totals are accumulated, and every unordered pair
    of stages is charged an interaction. `f64` is modelled by `real`. */
module Attribution {
  import opened Integers
  import opened Sequences
  import opened Text

  datatype Stage = Marshal | Queue | Schedule | Policy | Execute | Io

  /** `STAGE_DECOMPOSITION`, in the order the loops use. */
  const STAGES: seq<Stage> := [Marshal, Queue, Schedule, Policy, Execute, Io]

  /** The same stages by name, which is the order of the keys of the pair map. */
  const STAGES_BY_NAME: seq<Stage> := [Execute, Io, Marshal, Policy, Queue, Schedule]

  /** `StageWeights` and `StageTotals` have the same six fields. */
  datatype StageVector = StageVector(
    marshal: real, queue: real, schedule: real, policy: real, execute: real, io: real)
  {
    function Sum(): real {
      marshal + queue + schedule + policy + execute + io
    }

    function Scaled(t: real): StageVector {
      StageVector(marshal * t, queue * t, schedule * t, policy * t, execute * t, io * t)
    }

    function Add(v: StageVector): StageVector {
      StageVector(marshal + v.marshal, queue + v.queue, schedule + v.schedule,
                  policy + v.policy, execute + v.execute, io + v.io)
    }

    /** `stage_weight_component` */
    function At(s: Stage): real {
      match s
      case Marshal => marshal
      case Queue => queue
      case Schedule => schedule
      case Policy => policy
      case Execute => execute
      case Io => io
    }

    function SumOfSquares(): real {
      marshal * marshal + queue * queue + schedule * schedule + policy * policy + execute * execute + io * io
    }
  }

  /** `stage_weights_for_scenario`: whatever the scenario, all its time is shared out. */
  function WeightsFor(scenario: string): (w: StageVector)
    ensures w.Sum() == 1.0
    ensures forall s :: 0.0 < w.At(s) < 1.0
  {
    if Contains(scenario, "load_init") then StageVector(0.33, 0.12, 0.15, 0.12, 0.20, 0.08)
    else if Contains(scenario, "tool_call") then StageVector(0.08, 0.14, 0.10, 0.20, 0.34, 0.14)
    else if Contains(scenario, "event_hook") then StageVector(0.09, 0.16, 0.17, 0.18, 0.28, 0.12)
    else if Contains(scenario, "long_session") then StageVector(0.06, 0.22, 0.16, 0.18, 0.26, 0.12)
    else StageVector(0.16, 0.16, 0.16, 0.16, 0.20, 0.16)
  }

  datatype Timing = Timing(scenario: string, samples: nat, totalUs: real, weights: StageVector)

  /** A record's weights share out its whole time, as `parse_profile_record` checks. */
  ghost predicate Normalized(records: seq<Timing>) {
    forall k :: 0 <= k < |records| ==> records[k].weights.Sum() == 1.0
  }

  // ---- stage totals ----

  const ZERO := StageVector(0.0, 0.0, 0.0, 0.0, 0.0, 0.0)

  function TotalsOf(records: seq<Timing>): StageVector {
    if records == [] then ZERO
    else
      var last := records[|records| - 1];
      TotalsOf(records[..|records| - 1]).Add(last.weights.Scaled(last.totalUs))
  }

  function TotalTime(records: seq<Timing>): real {
    if records == [] then 0.0 else TotalTime(records[..|records| - 1]) + records[|records| - 1].totalUs
  }

  method AccumulateTotals(records: seq<Timing>) returns (totals: StageVector)
    ensures totals == TotalsOf(records)
  {
    totals := ZERO;
    for i := 0 to |records|
      invariant totals == TotalsOf(records[..i])
    {
      assert records[..i + 1][..i] == records[..i];
      totals := totals.Add(records[i].weights.Scaled(records[i].totalUs));
    }
    assert records[..|records|] == records;
  }

  lemma ScaledSum(w: StageVector, t: real)
    ensures w.Scaled(t).Sum() == w.Sum() * t
  {
  }

  /** No time is lost or invented: the stage totals add up to the records' time. */
  lemma {:induction false} TotalsConserveTime(records: seq<Timing>)
    requires Normalized(records)
    ensures TotalsOf(records).Sum() == TotalTime(records)
  {
    if records != [] {
      var last := records[|records| - 1];
      TotalsConserveTime(records[..|records| - 1]);
      ScaledSum(last.weights, last.totalUs);
    }
  }

  function ShareOf(s: Stage): Timing -> real { (r: Timing) => r.totalUs * r.weights.At(s) }

  /** Each stage's total is the sum of its shares of the records' times. */
  lemma {:induction false} StageTotalIsSum(records: seq<Timing>, s: Stage)
    ensures TotalsOf(records).At(s) == SumReal(Map(records, ShareOf(s)))
  {
    SumRealEnds(Map(records, ShareOf(s)));
    if records == [] {
      NoTotals(s);
    } else {
      hide SumReal, ShareOf;
      var n := |records| - 1;
      StageTotalIsSum(records[..n], s);
      assert Map(records, ShareOf(s))[..n] == Map(records[..n], ShareOf(s));
      TotalsMore(records, s);
    }
  }

  lemma NoTotals(s: Stage)
    ensures TotalsOf([]).At(s) == 0.0
  {
  }

  lemma TotalsMore(records: seq<Timing>, s: Stage)
    requires records != []
    ensures TotalsOf(records).At(s) == TotalsOf(records[..|records| - 1]).At(s) + ShareOf(s)(records[|records| - 1])
  {
    var last := records[|records| - 1];
    AddAt(TotalsOf(records[..|records| - 1]), last.weights, last.totalUs, s);
  }

  lemma AddAt(v: StageVector, w: StageVector, t: real, s: Stage)
    ensures v.Add(w.Scaled(t)).At(s) == v.At(s) + t * w.At(s)
  {
  }

  /** The totals of a single record order the stages as its weights do. */
  lemma RecordOrder(r: Timing, a: Stage, b: Stage)
    requires r.totalUs > 0.0
    ensures TotalsOf([r]).At(a) < TotalsOf([r]).At(b) <==> r.weights.At(a) < r.weights.At(b)
    ensures TotalsOf([r]).At(a) == TotalsOf([r]).At(b) <==> r.weights.At(a) == r.weights.At(b)
  {
    hide TotalsOf;
    OneRecord(r, a);
    OneRecord(r, b);
    Scales(r.weights.At(a), r.weights.At(b), r.totalUs);
  }

  lemma Scales(x: real, y: real, t: real)
    requires t > 0.0
    ensures (t * x < t * y <==> x < y) && (t * x == t * y <==> x == y)
  {
  }

  /** Of a single record's time, loading spends most on marshalling and anything else most
      on execution. */
  lemma DominantStage(scenario: string, samples: nat, t: real, s: Stage)
    requires t > 0.0
    ensures var v := TotalsOf([Timing(scenario, samples, t, WeightsFor(scenario))]);
      var dominant := if Contains(scenario, "load_init") then Marshal else Execute;
      s != dominant ==> v.At(s) < v.At(dominant)
  {
    hide Contains, TotalsOf;
    var dominant := if Contains(scenario, "load_init") then Marshal else Execute;
    StagesByScenario(scenario);
    hide WeightsFor;
    RecordOrder(Timing(scenario, samples, t, WeightsFor(scenario)), s, dominant);
  }

  /** How a scenario's time is shared out: loading is a third marshalling; everything else is
      mostly execution, then policy for tool calls and event hooks and queueing for long
      sessions; an unknown scenario favours execution only. The first marker found in the
      name decides. */
  lemma StagesByScenario(scenario: string)
    ensures var w := WeightsFor(scenario);
      if Contains(scenario, "load_init") then
        && w.At(Marshal) > w.At(Execute) > w.At(Schedule) > w.At(Queue) == w.At(Policy) > w.At(Io)
        && 100.0 * w.At(Marshal) == 33.0
      else if Contains(scenario, "tool_call") then
        && w.At(Execute) > w.At(Policy) > w.At(Queue) == w.At(Io) > w.At(Schedule) > w.At(Marshal)
        && 100.0 * w.At(Execute) == 34.0
      else if Contains(scenario, "event_hook") then
        && w.At(Execute) > w.At(Policy) > w.At(Schedule) > w.At(Queue) > w.At(Io) > w.At(Marshal)
        && 100.0 * w.At(Execute) == 28.0
      else if Contains(scenario, "long_session") then
        && w.At(Execute) > w.At(Queue) > w.At(Policy) > w.At(Schedule) > w.At(Io) > w.At(Marshal)
        && 100.0 * w.At(Execute) == 26.0
      else
        && w.At(Marshal) == w.At(Queue) == w.At(Schedule) == w.At(Policy) == w.At(Io) < w.At(Execute)
        && 100.0 * w.At(Execute) == 20.0
  {
    hide Contains;
  }

  lemma OneRecord(r: Timing, s: Stage)
    ensures TotalsOf([r]).At(s) == r.totalUs * r.weights.At(s)
  {
    assert [r][..0] == [];
    NoTotals(s);
    TotalsMore([r], s);
  }

  // ---- interactions ----

  type Pair = (Stage, Stage)

  function NameRank(s: Stage): nat {
    match s
    case Execute => 0
    case Io => 1
    case Marshal => 2
    case Policy => 3
    case Queue => 4
    case Schedule => 5
  }

  function StageName(s: Stage): string {
    match s
    case Marshal => "marshal"
    case Queue => "queue"
    case Schedule => "schedule"
    case Policy => "policy"
    case Execute => "execute"
    case Io => "io"
  }

  lemma RankIsAlphabetical(a: Stage, b: Stage)
    ensures NameRank(a) <= NameRank(b) <==> StrLe(StageName(a), StageName(b))
  {
    StrLeReflexive(StageName(a));
  }

  /** `format_interference_pair_key`: the two names in alphabetical order. */
  function PairKey(a: Stage, b: Stage): Pair {
    if NameRank(a) <= NameRank(b) then (a, b) else (b, a)
  }

  function Interaction(r: Timing, a: Stage, b: Stage): real {
    r.totalUs * r.weights.At(a) * r.weights.At(b)
  }

  function PairTotal(records: seq<Timing>, a: Stage, b: Stage): real {
    if records == [] then 0.0
    else PairTotal(records[..|records| - 1], a, b) + Interaction(records[|records| - 1], a, b)
  }

  /** Position in `STAGES`. */
  function Position(s: Stage): (i: nat)
    ensures i < 6 && STAGES[i] == s
  {
    match s
    case Marshal => 0
    case Queue => 1
    case Schedule => 2
    case Policy => 3
    case Execute => 4
    case Io => 5
  }

  /** The keys the map can have: two different stages in name order. */
  predicate Canonical(p: Pair) {
    NameRank(p.0) < NameRank(p.1)
  }

  function LeftOf(p: Pair): nat {
    if Position(p.0) < Position(p.1) then Position(p.0) else Position(p.1)
  }

  function RightOf(p: Pair): nat {
    if Position(p.0) < Position(p.1) then Position(p.1) else Position(p.0)
  }

  /** The nested loop, now at `(left, right)`, has already charged `p`. */
  predicate Charged(p: Pair, left: nat, right: nat) {
    LeftOf(p) < left || (LeftOf(p) == left && RightOf(p) < right)
  }

  /** What the three maps hold for one pair: its interaction, its samples, and its
      interaction by scenario. */
  datatype PairEntry = PairEntry(us: real, samples: nat, scenarios: map<string, real>)

  /** The sample counter is a plain `u64` sum, unlike the saturating one of the summary. */
  function Charging(e: PairEntry, r: Timing, a: Stage, b: Stage): PairEntry {
    var us := Interaction(r, a, b);
    PairEntry(e.us + us, WrappingAdd(e.samples, r.samples),
              e.scenarios[r.scenario := (if r.scenario in e.scenarios then e.scenarios[r.scenario] else 0.0) + us])
  }

  const NO_ENTRY := PairEntry(0.0, 0, map[])

  function EntryOf(records: seq<Timing>, a: Stage, b: Stage): PairEntry {
    if records == [] then NO_ENTRY
    else Charging(EntryOf(records[..|records| - 1], a, b), records[|records| - 1], a, b)
  }

  /** Entry of `p` after the first `k` records and the next up to `(left, right)`. */
  function PairValue(records: seq<Timing>, k: nat, left: nat, right: nat, p: Pair): PairEntry
    requires k <= |records|
  {
    var before := EntryOf(records[..k], p.0, p.1);
    if k < |records| && Charged(p, left, right) then Charging(before, records[k], p.0, p.1) else before
  }

  ghost predicate PairMap(m: map<Pair, PairEntry>, records: seq<Timing>, k: nat, left: nat, right: nat)
    requires k <= |records|
  {
    forall p: Pair ::
      && (p in m <==> Canonical(p) && (k > 0 || Charged(p, left, right)))
      && (p in m ==> m[p] == PairValue(records, k, left, right, p))
  }

  /** The nested loop reaches each pair at one place only. */
  lemma ChargedOnce(l: nat, r: nat, p: Pair)
    requires l < r < 6 && Canonical(p)
    ensures var key := PairKey(STAGES[l], STAGES[r]);
            && Canonical(key) && !Charged(key, l, r)
            && (Charged(p, l, r + 1) <==> Charged(p, l, r) || p == key)
  {
    assert STAGES[0] == Marshal && STAGES[1] == Queue && STAGES[2] == Schedule;
    assert STAGES[3] == Policy && STAGES[4] == Execute && STAGES[5] == Io;
  }

  lemma ChargingSymmetric(e: PairEntry, r: Timing, a: Stage, b: Stage)
    ensures Charging(e, r, a, b) == Charging(e, r, b, a)
  {
    assert Interaction(r, a, b) == Interaction(r, b, a);
  }

  /** One turn of the innermost loop. */
  method Charge(m: map<Pair, PairEntry>, records: seq<Timing>, k: nat, l: nat, r: nat)
    returns (m': map<Pair, PairEntry>)
    requires k < |records| && l < r < 6 && PairMap(m, records, k, l, r)
    ensures PairMap(m', records, k, l, r + 1)
  {
    var key := PairKey(STAGES[l], STAGES[r]);
    var sofar := if key in m then m[key] else NO_ENTRY;
    m' := m[key := Charging(sofar, records[k], STAGES[l], STAGES[r])];
    ChargingSymmetric(sofar, records[k], STAGES[l], STAGES[r]);
    ChargedOnce(l, r, key);
    FirstEntry(records, key);
    hide Charging, EntryOf;
    forall p: Pair
      ensures p in m' <==> Canonical(p) && (k > 0 || Charged(p, l, r + 1))
      ensures p in m' ==> m'[p] == PairValue(records, k, l, r + 1, p)
    {
      if Canonical(p) { ChargedOnce(l, r, p); }
    }
  }

  lemma FirstEntry(records: seq<Timing>, p: Pair)
    ensures EntryOf(records[..0], p.0, p.1) == NO_ENTRY
  {
  }

  /** The maps built by the nested loops: one entry per unordered pair of stages,
      charged once by every record. */
  method BuildInterference(records: seq<Timing>) returns (m: map<Pair, PairEntry>)
    ensures forall p: Pair :: p in m <==> Canonical(p) && records != []
    ensures forall p: Pair :: p in m ==> m[p] == EntryOf(records, p.0, p.1)
  {
    hide EntryOf, Charging;
    m := map[];
    for k := 0 to |records|
      invariant PairMap(m, records, k, 0, 0)
    {
      for l := 0 to 6
        invariant PairMap(m, records, k, l, 0)
      {
        SkipLeft(m, records, k, l);
        for r := l + 1 to 6
          invariant PairMap(m, records, k, l, r)
        {
          m := Charge(m, records, k, l, r);
        }
        NextLeft(m, records, k, l);
      }
      NextRecord(m, records, k);
    }
    assert records[..|records|] == records;
  }

  lemma SkipLeft(m: map<Pair, PairEntry>, records: seq<Timing>, k: nat, l: nat)
    requires k < |records| && l < 6 && PairMap(m, records, k, l, 0)
    ensures PairMap(m, records, k, l, l + 1)
  {
    forall p: Pair | Canonical(p) ensures Charged(p, l, 0) <==> Charged(p, l, l + 1) {
      assert LeftOf(p) < RightOf(p);
    }
  }

  lemma NextLeft(m: map<Pair, PairEntry>, records: seq<Timing>, k: nat, l: nat)
    requires k < |records| && l < 6 && PairMap(m, records, k, l, 6)
    ensures PairMap(m, records, k, l + 1, 0)
  {
    assert forall p: Pair :: Charged(p, l, 6) <==> Charged(p, l + 1, 0);
  }

  lemma NextRecord(m: map<Pair, PairEntry>, records: seq<Timing>, k: nat)
    requires k < |records| && PairMap(m, records, k, 6, 0)
    ensures PairMap(m, records, k + 1, 0, 0)
  {
    assert records[..k + 1][..k] == records[..k];
    forall p: Pair ensures PairValue(records, k, 6, 0, p) == PairValue(records, k + 1, 0, 0, p) {
      assert Charged(p, 6, 0) && !Charged(p, 0, 0);
    }
  }

  // ---- what an entry holds ----

  function SampleSum(records: seq<Timing>): nat {
    if records == [] then 0 else SampleSum(records[..|records| - 1]) + records[|records| - 1].samples
  }

  function OfScenario(records: seq<Timing>, scenario: string): seq<Timing> {
    if records == [] then []
    else
      var last := records[|records| - 1];
      OfScenario(records[..|records| - 1], scenario) + if last.scenario == scenario then [last] else []
  }

  /** The interaction is the sum over all records, the sample count the wrapped sum of
      their samples. */
  lemma {:induction false} EntryTotals(records: seq<Timing>, a: Stage, b: Stage)
    ensures EntryOf(records, a, b).us == PairTotal(records, a, b)
    ensures EntryOf(records, a, b).samples == SampleSum(records) % (U64_MAX + 1)
  {
    hide Interaction, WrappingAdd;
    if records != [] {
      EntryTotals(records[..|records| - 1], a, b);
      WrapSum(SampleSum(records[..|records| - 1]), records[|records| - 1].samples);
    }
  }

  /** The sample count of a pair is right exactly while the sum fits 64 bits. */
  lemma SampleCountExactIff(records: seq<Timing>, a: Stage, b: Stage)
    ensures EntryOf(records, a, b).samples == SampleSum(records) <==> SampleSum(records) <= U64_MAX
  {
    hide EntryOf;
    EntryTotals(records, a, b);
  }

  /** Two records, one with the largest count and one with a single sample, count as none. */
  lemma SampleCountWraps(r: Timing, a: Stage, b: Stage)
    ensures var records := [r.(samples := U64_MAX), r.(samples := 1)];
      SampleSum(records) == U64_MAX + 1 && EntryOf(records, a, b).samples == 0
  {
    hide EntryOf;
    var records := [r.(samples := U64_MAX), r.(samples := 1)];
    assert records[..1] == [records[0]] && records[..1][..0] == [];
    assert SampleSum(records[..1]) == U64_MAX;
    EntryTotals(records, a, b);
  }

  lemma PairTotalAppend(records: seq<Timing>, r: Timing, a: Stage, b: Stage)
    ensures PairTotal(records + [r], a, b) == PairTotal(records, a, b) + Interaction(r, a, b)
    ensures PairTotal([], a, b) == 0.0
  {
    assert (records + [r])[..|records|] == records;
  }

  /** The scenarios are those that occur, each with the interaction of its own records. */
  lemma {:induction false} EntryScenarios(records: seq<Timing>, a: Stage, b: Stage, s: string)
    ensures var e := EntryOf(records, a, b);
      && (s in e.scenarios <==> OfScenario(records, s) != [])
      && (s in e.scenarios ==> e.scenarios[s] == PairTotal(OfScenario(records, s), a, b))
  {
    hide Interaction, WrappingAdd, PairTotal;
    if records != [] {
      var init, last := records[..|records| - 1], records[|records| - 1];
      EntryScenarios(init, a, b, s);
      var before := OfScenario(init, s);
      PairTotalAppend(before, last, a, b);
      assert before + [] == before;
    }
  }

  lemma WrapSum(x: nat, y: nat)
    ensures WrappingAdd(x % (U64_MAX + 1), y) == (x + y) % (U64_MAX + 1)
  {
    var n := 0x1_0000_0000_0000_0000;
    var q, z := x / n, x % n + y;
    assert x + y == (q + z / n) * n + z % n;
  }

  // ---- total interaction and shares ----

  function SumSquares(s: seq<real>): real {
    if s == [] then 0.0 else s[0] * s[0] + SumSquares(s[1..])
  }

  function PairProducts(s: seq<real>): real {
    if s == [] then 0.0 else s[0] * SumReal(s[1..]) + PairProducts(s[1..])
  }

  lemma {:induction false} SquareOfSum(s: seq<real>)
    ensures SumReal(s) * SumReal(s) == SumSquares(s) + 2.0 * PairProducts(s)
  {
    if s != [] {
      SquareOfSum(s[1..]);
      var t := s[1..];
      SquareStep(s[0], SumReal(t), SumSquares(t), PairProducts(t));
    }
  }

  lemma SquareStep(h: real, t: real, squares: real, products: real)
    requires t * t == squares + 2.0 * products
    ensures (h + t) * (h + t) == h * h + squares + 2.0 * (h * t + products)
  {
    assert (h + t) * (h + t) == h * h + 2.0 * (h * t) + t * t;
  }

  /** Sum of `f(first, other)` over the others, and over all pairs, in list order. */
  function OverOthers(first: Stage, others: seq<Stage>, f: (Stage, Stage) -> real): real {
    if others == [] then 0.0 else f(first, others[0]) + OverOthers(first, others[1..], f)
  }

  function OverPairs(stages: seq<Stage>, f: (Stage, Stage) -> real): real {
    if stages == [] then 0.0 else OverOthers(stages[0], stages[1..], f) + OverPairs(stages[1..], f)
  }

  lemma {:induction false} OverOthersAdd(
    x: Stage, s: seq<Stage>, f: (Stage, Stage) -> real, g: (Stage, Stage) -> real, h: (Stage, Stage) -> real)
    requires forall a, b :: h(a, b) == f(a, b) + g(a, b)
    ensures OverOthers(x, s, h) == OverOthers(x, s, f) + OverOthers(x, s, g)
  {
    if s != [] { OverOthersAdd(x, s[1..], f, g, h); }
  }

  lemma {:induction false} OverPairsAdd(
    s: seq<Stage>, f: (Stage, Stage) -> real, g: (Stage, Stage) -> real, h: (Stage, Stage) -> real)
    requires forall a, b :: h(a, b) == f(a, b) + g(a, b)
    ensures OverPairs(s, h) == OverPairs(s, f) + OverPairs(s, g)
  {
    if s != [] {
      OverOthersAdd(s[0], s[1..], f, g, h);
      OverPairsAdd(s[1..], f, g, h);
    }
  }

  function WeightsAt(w: StageVector, s: seq<Stage>): (r: seq<real>)
    ensures |r| == |s|
  {
    if s == [] then [] else [w.At(s[0])] + WeightsAt(w, s[1..])
  }

  lemma TimesSum(t: real, a: real, b: real)
    ensures t * (a + b) == t * a + t * b
  {
  }

  lemma Distribute(t: real, x: real, a: real, b: real)
    ensures t * (x * (a + b)) == t * x * a + t * (x * b)
  {
    TimesSum(x, a, b);
    TimesSum(t, x * a, x * b);
  }

  lemma WeightsHead(w: StageVector, s: seq<Stage>)
    requires s != []
    ensures SumReal(WeightsAt(w, s)) == w.At(s[0]) + SumReal(WeightsAt(w, s[1..]))
  {
    hide StageVector.At;
    assert WeightsAt(w, s)[1..] == WeightsAt(w, s[1..]);
  }

  lemma InteractionIs(r: Timing, a: Stage, b: Stage)
    ensures Interaction(r, a, b) == r.totalUs * r.weights.At(a) * r.weights.At(b)
  {
    hide StageVector.At;
  }

  lemma {:induction false} OthersOfRecord(r: Timing, x: Stage, s: seq<Stage>, f: (Stage, Stage) -> real)
    requires forall a, b :: f(a, b) == Interaction(r, a, b)
    ensures OverOthers(x, s, f) == r.totalUs * (r.weights.At(x) * SumReal(WeightsAt(r.weights, s)))
  {
    hide StageVector.At, Interaction, SumReal, WeightsAt;
    if s == [] {
      NoWeights(r.weights, s);
    } else {
      OthersOfRecord(r, x, s[1..], f);
      InteractionIs(r, x, s[0]);
      WeightsHead(r.weights, s);
      Distribute(r.totalUs, r.weights.At(x), r.weights.At(s[0]), SumReal(WeightsAt(r.weights, s[1..])));
    }
  }

  lemma NoWeights(w: StageVector, s: seq<Stage>)
    requires s == []
    ensures SumReal(WeightsAt(w, s)) == 0.0 == SumSquares(WeightsAt(w, s))
  {
  }

  lemma {:induction false} PairsOfRecord(r: Timing, s: seq<Stage>, f: (Stage, Stage) -> real)
    requires forall a, b :: f(a, b) == Interaction(r, a, b)
    ensures OverPairs(s, f) == r.totalUs * PairProducts(WeightsAt(r.weights, s))
  {
    hide StageVector.At, Interaction;
    if s == [] {
      assert PairProducts(WeightsAt(r.weights, s)) == 0.0;
    } else {
      OthersOfRecord(r, s[0], s[1..], f);
      PairsOfRecord(r, s[1..], f);
      assert WeightsAt(r.weights, s)[1..] == WeightsAt(r.weights, s[1..]);
      TimesSum(r.totalUs, r.weights.At(s[0]) * SumReal(WeightsAt(r.weights, s[1..])),
               PairProducts(WeightsAt(r.weights, s[1..])));
    }
  }

  /** What one record contributes: its time times half of one minus its squared weights. */
  function Spread(r: Timing): real {
    r.totalUs * ((1.0 - r.weights.SumOfSquares()) / 2.0)
  }

  function TotalSpread(records: seq<Timing>): real {
    if records == [] then 0.0 else TotalSpread(records[..|records| - 1]) + Spread(records[|records| - 1])
  }

  lemma WeightsByName(w: StageVector)
    ensures SumReal(WeightsAt(w, STAGES_BY_NAME)) == w.Sum()
    ensures SumSquares(WeightsAt(w, STAGES_BY_NAME)) == w.SumOfSquares()
  {
    hide SumReal, SumSquares, WeightsAt;
    var a := [Schedule];
    var b := [Queue] + a;
    var c := [Policy] + b;
    var d := [Marshal] + c;
    var e := [Io] + d;
    assert STAGES_BY_NAME == [Execute] + e;
    NoWeights(w, []);
    WeightsStep(w, Schedule, []);
    assert a == [Schedule] + [];
    WeightsStep(w, Queue, a);
    WeightsStep(w, Policy, b);
    WeightsStep(w, Marshal, c);
    WeightsStep(w, Io, d);
    WeightsStep(w, Execute, e);
  }

  lemma WeightsStep(w: StageVector, x: Stage, s: seq<Stage>)
    ensures SumReal(WeightsAt(w, [x] + s)) == w.At(x) + SumReal(WeightsAt(w, s))
    ensures SumSquares(WeightsAt(w, [x] + s)) == w.At(x) * w.At(x) + SumSquares(WeightsAt(w, s))
  {
    assert ([x] + s)[1..] == s;
    assert WeightsAt(w, [x] + s)[1..] == WeightsAt(w, s);
  }

  lemma {:induction false} InteractionOfRecords(records: seq<Timing>, f: (Stage, Stage) -> real)
    requires Normalized(records) && forall a, b :: f(a, b) == PairTotal(records, a, b)
    ensures OverPairs(STAGES_BY_NAME, f) == TotalSpread(records)
  {
    if records == [] {
      ZeroPairs(STAGES_BY_NAME, f);
    } else {
      var before, last := records[..|records| - 1], records[|records| - 1];
      var g, h := (a, b) => PairTotal(before, a, b), (a, b) => Interaction(last, a, b);
      InteractionOfRecords(before, g);
      OverPairsAdd(STAGES_BY_NAME, g, h, f);
      SpreadOfRecord(last, h);
    }
  }

  lemma SpreadOfRecord(r: Timing, f: (Stage, Stage) -> real)
    requires r.weights.Sum() == 1.0 && forall a, b :: f(a, b) == Interaction(r, a, b)
    ensures OverPairs(STAGES_BY_NAME, f) == Spread(r)
  {
    hide WeightsAt, SumReal, SumSquares, PairProducts, OverPairs, Interaction;
    hide StageVector.Sum, StageVector.SumOfSquares;
    var w := WeightsAt(r.weights, STAGES_BY_NAME);
    PairsOfRecord(r, STAGES_BY_NAME, f);
    WeightsByName(r.weights);
    SquareOfSum(w);
    assert SumReal(w) * SumReal(w) == 1.0;
    assert PairProducts(w) == (1.0 - SumSquares(w)) / 2.0;
  }

  lemma {:induction false} ZeroPairs(s: seq<Stage>, f: (Stage, Stage) -> real)
    requires forall a, b :: f(a, b) == 0.0
    ensures OverPairs(s, f) == 0.0
  {
    if s != [] {
      ZeroOthers(s[0], s[1..], f);
      ZeroPairs(s[1..], f);
    }
  }

  lemma {:induction false} ZeroOthers(x: Stage, s: seq<Stage>, f: (Stage, Stage) -> real)
    requires forall a, b :: f(a, b) == 0.0
    ensures OverOthers(x, s, f) == 0.0
  {
    if s != [] { ZeroOthers(x, s[1..], f); }
  }

  /** `pair_totals_us.values().sum()`, read in key order. */
  function SumOfValues(m: map<Pair, PairEntry>): real {
    OverPairs(STAGES_BY_NAME, (a, b) => if (a, b) in m then m[(a, b)].us else 0.0)
  }

  /** The interaction the pair map holds in total, for any parsed records. */
  lemma TotalInteraction(m: map<Pair, PairEntry>, records: seq<Timing>)
    requires Normalized(records)
    requires forall p: Pair :: p in m <==> Canonical(p) && records != []
    requires forall p: Pair :: p in m ==> m[p] == EntryOf(records, p.0, p.1)
    ensures SumOfValues(m) == TotalSpread(records)
  {
    hide EntryOf, OverPairs, PairTotal, Canonical, TotalSpread;
    var f := (a, b) => PairTotal(records, a, b);
    var g := (a, b) => if (a, b) in m then m[(a, b)].us else 0.0;
    var stages := STAGES_BY_NAME;
    InteractionOfRecords(records, f);
    forall i, j | 0 <= i < j < |stages| ensures f(stages[i], stages[j]) == g(stages[i], stages[j]) {
      ByNameCanonical(i, j);
      PairAgrees(m, records, stages[i], stages[j]);
    }
    SamePairs(stages, f, g);
  }

  lemma ByNameCanonical(i: nat, j: nat)
    requires i < j < |STAGES_BY_NAME|
    ensures Canonical((STAGES_BY_NAME[i], STAGES_BY_NAME[j]))
  {
    assert forall k :: 0 <= k < 6 ==> NameRank(STAGES_BY_NAME[k]) == k;
  }

  lemma PairAgrees(m: map<Pair, PairEntry>, records: seq<Timing>, a: Stage, b: Stage)
    requires Canonical((a, b)) && ((a, b) in m <==> records != [])
    requires (a, b) in m ==> m[(a, b)] == EntryOf(records, a, b)
    ensures PairTotal(records, a, b) == if (a, b) in m then m[(a, b)].us else 0.0
  {
    EntryTotals(records, a, b);
  }

  lemma {:induction false} SamePairs(s: seq<Stage>, f: (Stage, Stage) -> real, g: (Stage, Stage) -> real)
    requires forall i, j :: 0 <= i < j < |s| ==> f(s[i], s[j]) == g(s[i], s[j])
    ensures OverPairs(s, f) == OverPairs(s, g)
  {
    if s != [] {
      assert forall j :: 0 <= j < |s[1..]| ==> f(s[0], s[1..][j]) == g(s[0], s[1..][j]);
      SameOthers(s[0], s[1..], f, g);
      SamePairs(s[1..], f, g);
    }
  }

  lemma {:induction false} SameOthers(x: Stage, s: seq<Stage>, f: (Stage, Stage) -> real, g: (Stage, Stage) -> real)
    requires forall j :: 0 <= j < |s| ==> f(x, s[j]) == g(x, s[j])
    ensures OverOthers(x, s, f) == OverOthers(x, s, g)
  {
    if s != [] { SameOthers(x, s[1..], f, g); }
  }

  /** The divisor of the share columns: the sum, but at least one. */
  function Divisor(sum: real): (d: real)
    ensures d >= 1.0
  {
    if sum < 1.0 then 1.0 else sum
  }

  function SharePct(x: real, d: real): real
    requires d != 0.0
  {
    x / d * 100.0
  }

  function Shares(parts: seq<real>, d: real): (r: seq<real>)
    requires d != 0.0
    ensures |r| == |parts|
  {
    if parts == [] then [] else [SharePct(parts[0], d)] + Shares(parts[1..], d)
  }

  /** Each share is its own part's, in per cent of the divisor. */
  lemma {:induction false} ShareOfPart(parts: seq<real>, d: real, i: nat)
    requires d != 0.0 && i < |parts|
    ensures Shares(parts, d)[i] * d == 100.0 * parts[i]
  {
    if i == 0 {
      assert parts[0] / d * d == parts[0];
      assert Shares(parts, d)[0] * d == 100.0 * (parts[0] / d * d);
    } else {
      ShareOfPart(parts[1..], d, i - 1);
    }
  }

  lemma {:induction false} SumOfShares(parts: seq<real>, d: real)
    requires d != 0.0
    ensures SumReal(Shares(parts, d)) == SharePct(SumReal(parts), d)
  {
    if parts != [] {
      SumOfShares(parts[1..], d);
      assert Shares(parts, d)[1..] == Shares(parts[1..], d);
      ShareAdds(parts[0], SumReal(parts[1..]), d);
    }
  }

  lemma ShareAdds(a: real, b: real, d: real)
    requires d != 0.0
    ensures SharePct(a + b, d) == SharePct(a, d) + SharePct(b, d)
  {
    assert (a + b) / d == a / d + b / d;
  }

  /** A share column sums to 100 exactly when its divisor's guard is inactive, that
      is, when the parts themselves sum to at least one microsecond; below that it
      sums to 100 times their sum. */
  lemma SharesSumToHundred(parts: seq<real>)
    ensures SumReal(Shares(parts, Divisor(SumReal(parts)))) == 100.0 <==> SumReal(parts) >= 1.0
    ensures SumReal(parts) < 1.0 ==> SumReal(Shares(parts, Divisor(SumReal(parts)))) == 100.0 * SumReal(parts)
  {
    var sum := SumReal(parts);
    SumOfShares(parts, Divisor(sum));
    if sum >= 1.0 { assert sum / sum == 1.0; }
  }

  /** The hotspot column: the six stage shares of the records' total time. */
  lemma HotspotShares(records: seq<Timing>)
    requires Normalized(records)
    ensures var totals := TotalsOf(records);
            SumReal(Shares(WeightsAt(totals, STAGES), Divisor(totals.Sum()))) == 100.0 <==> TotalTime(records) >= 1.0
  {
    var t := TotalsOf(records);
    TotalsConserveTime(records);
    WeightsInOrder(t);
    hide SumReal, WeightsAt, TotalsOf, StageVector.Sum;
    SharesSumToHundred(WeightsAt(t, STAGES));
  }

  lemma WeightsInOrder(w: StageVector)
    ensures SumReal(WeightsAt(w, STAGES)) == w.Sum()
  {
    hide SumReal, SumSquares, WeightsAt;
    var a := [Io];
    var b := [Execute] + a;
    var c := [Policy] + b;
    var d := [Schedule] + c;
    var e := [Queue] + d;
    assert STAGES == [Marshal] + e;
    NoWeights(w, []);
    WeightsStep(w, Io, []);
    assert a == [Io] + [];
    WeightsStep(w, Execute, a);
    WeightsStep(w, Policy, b);
    WeightsStep(w, Schedule, c);
    WeightsStep(w, Queue, d);
    WeightsStep(w, Marshal, e);
  }
}
