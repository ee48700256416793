/** The S3-FIFO admission policy of the hostcall queues, specified without any
    index: three sequences, a map from live keys to owners, and the recent
    decision signals. `S3FifoPolicy.dfy` proves that the indexed implementation
    behaves like this. */
module S3Fifo {
  import opened Integers
  import opened Sequences
  import opened Wrappers

  datatype Config = Config(
    live: nat,
    small: nat,
    ghosts: nat,
    perOwner: nat,
    window: nat,
    minGhostHits: nat,
    maxRejections: nat)

  function AtLeast(n: nat, lo: nat): nat { if n < lo then lo else n }

  function AtMost(n: nat, hi: nat): nat { if n > hi then hi else n }

  /** The adjustments made by the constructor. */
  function Normalize(c: Config): (n: Config)
    ensures Normal(n)
  {
    var live := AtLeast(c.live, 2);
    var window := AtLeast(c.window, 1);
    Config(live, AtMost(AtLeast(c.small, 1), AtLeast(live - 1, 1)), AtLeast(c.ghosts, 1), AtLeast(c.perOwner, 1),
           window, AtMost(c.minGhostHits, window), AtMost(c.maxRejections, window))
  }

  predicate Normal(c: Config) {
    1 <= c.small < c.live && 1 <= c.ghosts && 1 <= c.perOwner && 1 <= c.window
    && c.minGhostHits <= c.window && c.maxRejections <= c.window
  }

  datatype Reason = SignalQualityInsufficient | FairnessInstability
  datatype Tier = Small | Main | Ghost | Fallback
  datatype Kind = AdmitSmall | PromoteSmallToMain | HitMain | AdmitFromGhost | RejectFairnessBudget | FallbackBypass
  datatype Signal = Signal(ghostHit: bool, rejected: bool)
  datatype Totals = Totals(ghostHits: nat, admissions: nat, promotions: nat, rejections: nat)

  datatype Decision = Decision(kind: Kind, tier: Tier, ghostHit: bool, reason: Option<Reason>,
                               liveDepth: nat, smallDepth: nat, mainDepth: nat, ghostDepth: nat)

  /** Queues are listed oldest first. `generation` numbers the pushes onto the ghost
      queue, which is emptied when the number would overflow. */
  datatype Policy<!K> = Policy(
    small: seq<K>,
    main: seq<K>,
    owner: map<K, string>,
    ghosts: seq<K>,
    generation: nat,
    recent: seq<Signal>,
    fallback: Option<Reason>,
    totals: Totals)

  function New<K>(): Policy<K> {
    Policy([], [], map[], [], 0, [], None, Totals(0, 0, 0, 0))
  }

  /** Removes the first occurrence. */
  function Without<K(==)>(s: seq<K>, k: K): seq<K> {
    if s == [] then [] else if s[0] == k then s[1..] else [s[0]] + Without(s[1..], k)
  }

  function Owned<K>(owner: map<K, string>, o: string): nat {
    |set k | k in owner && owner[k] == o|
  }

  // ---- evictions ----

  /** The last `n` elements. */
  function Newest<T>(s: seq<T>, n: nat): seq<T> { if |s| > n then s[|s| - n..] else s }

  function PushGhost<K(==)>(c: Config, p: Policy<K>, k: K): Policy<K> {
    var q := if p.generation >= U64_MAX then p.(ghosts := [], generation := 0) else p;
    q.(ghosts := Newest(Without(q.ghosts, k) + [k], c.ghosts), generation := q.generation + 1)
  }

  function EvictSmall<K(==)>(c: Config, p: Policy<K>): Policy<K>
    requires p.small != []
  {
    PushGhost(c, p.(small := p.small[1..], owner := p.owner - {p.small[0]}), p.small[0])
  }

  function EvictMain<K(==)>(c: Config, p: Policy<K>): Policy<K>
    requires p.main != []
  {
    PushGhost(c, p.(main := p.main[1..], owner := p.owner - {p.main[0]}), p.main[0])
  }

  function EnforceSmall<K(==)>(c: Config, p: Policy<K>): Policy<K>
    decreases |p.small|
  {
    if |p.small| > c.small then EnforceSmall(c, EvictSmall(c, p)) else p
  }

  function EnforceMain<K(==)>(c: Config, p: Policy<K>): Policy<K>
    requires c.small <= c.live
    decreases |p.main|
  {
    if |p.main| > c.live - c.small then EnforceMain(c, EvictMain(c, p)) else p
  }

  function EnforceLive<K(==)>(c: Config, p: Policy<K>): Policy<K>
    decreases |p.small| + |p.main|
  {
    if |p.small| + |p.main| > c.live then
      EnforceLive(c, if p.small == [] then EvictMain(c, p) else EvictSmall(c, p))
    else p
  }

  // ---- one access ----

  /** What an access with no fallback in force does, before the signal is recorded. */
  function KindOf<K(==)>(c: Config, p: Policy<K>, o: string, k: K): Kind {
    if k in p.main then HitMain
    else if k in p.small then PromoteSmallToMain
    else if Owned(p.owner, o) >= c.perOwner then RejectFairnessBudget
    else if k in p.ghosts then AdmitFromGhost
    else AdmitSmall
  }

  predicate IsGhostHit<K(==)>(p: Policy<K>, k: K) {
    k !in p.main && k !in p.small && k in p.ghosts
  }

  function Move<K(==)>(c: Config, p: Policy<K>, o: string, k: K): Policy<K>
    requires c.small <= c.live
  {
    match KindOf(c, p, o, k)
    case HitMain => p.(main := Without(p.main, k) + [k])
    case PromoteSmallToMain =>
      EnforceLive(c, EnforceMain(c, p.(small := Without(p.small, k), main := p.main + [k])))
    case AdmitFromGhost =>
      EnforceLive(c, EnforceMain(c, p.(ghosts := Without(p.ghosts, k), main := p.main + [k], owner := p.owner[k := o])))
    case AdmitSmall =>
      EnforceLive(c, EnforceSmall(c, p.(small := p.small + [k], owner := p.owner[k := o])))
    case _ => p
  }

  function Tally(t: Totals, kind: Kind, ghostHit: bool): Totals {
    Totals(if ghostHit then SaturatingAdd(t.ghostHits, 1) else t.ghostHits,
           if kind == AdmitSmall || kind == AdmitFromGhost then SaturatingAdd(t.admissions, 1) else t.admissions,
           if kind == PromoteSmallToMain then SaturatingAdd(t.promotions, 1) else t.promotions,
           if kind == RejectFairnessBudget then SaturatingAdd(t.rejections, 1) else t.rejections)
  }

  function Record(c: Config, recent: seq<Signal>, s: Signal): seq<Signal> {
    Newest(recent + [s], c.window)
  }

  function Evaluate(c: Config, recent: seq<Signal>): Option<Reason> {
    if |recent| < c.window then None
    else if Count(recent, (s: Signal) => s.ghostHit) < c.minGhostHits then Some(SignalQualityInsufficient)
    else if Count(recent, (s: Signal) => s.rejected) > c.maxRejections then Some(FairnessInstability)
    else None
  }

  function TierOf(kind: Kind, ghostHit: bool): Tier {
    match kind
    case HitMain => Main
    case PromoteSmallToMain => Main
    case AdmitFromGhost => Main
    case AdmitSmall => Small
    case RejectFairnessBudget => if ghostHit then Ghost else Small
    case FallbackBypass => Fallback
  }

  function Access<K(==)>(c: Config, p: Policy<K>, o: string, k: K): Policy<K>
    requires c.small <= c.live
  {
    if p.fallback.Some? then p
    else
      var kind, hit := KindOf(c, p, o, k), IsGhostHit(p, k);
      var recent := Record(c, p.recent, Signal(hit, kind == RejectFairnessBudget));
      Move(c, p, o, k).(totals := Tally(p.totals, kind, hit), recent := recent, fallback := Evaluate(c, recent))
  }

  /** The decision reports depths and the fallback as they are after the access. */
  function Decide<K(==)>(c: Config, p: Policy<K>, o: string, k: K): Decision
    requires c.small <= c.live
  {
    var after := Access(c, p, o, k);
    var kind := if p.fallback.Some? then FallbackBypass else KindOf(c, p, o, k);
    var hit := p.fallback.None? && IsGhostHit(p, k);
    Decision(kind, TierOf(kind, hit), hit, after.fallback,
             |after.small| + |after.main|, |after.small|, |after.main|, |after.ghosts|)
  }

  function ClearFallback<K>(p: Policy<K>): Policy<K> {
    p.(fallback := None, recent := [])
  }

  // ---- what every run keeps ----

  /** Keys live in at most one queue and once, exactly the live keys have owners, no
      ghost is live, no queue is over its capacity, no owner over its budget. */
  ghost predicate Inv<K(!new)>(c: Config, p: Policy<K>) {
    && Distinct(p.small + p.main)
    && Distinct(p.ghosts)
    && (forall k :: k in p.owner <==> k in p.small + p.main)
    && (forall k :: k in p.ghosts ==> k !in p.owner)
    && |p.small| <= c.small
    && |p.main| <= c.live - c.small
    && |p.ghosts| <= c.ghosts
    && |p.recent| <= c.window
    && p.generation <= U64_MAX
    && (forall o :: Owned(p.owner, o) <= c.perOwner)
  }

  lemma {:induction false} WithoutSpec<K(!new)>(s: seq<K>, k: K)
    requires Distinct(s)
    ensures Distinct(Without(s, k)) && k !in Without(s, k)
    ensures forall x :: x in Without(s, k) <==> x in s && x != k
    ensures |Without(s, k)| == |s| - (if k in s then 1 else 0)
  {
    if s != [] {
      WithoutSpec(s[1..], k);
      assert s == [s[0]] + s[1..];
      if s[0] != k {
        var rest := Without(s[1..], k);
        forall j | 0 <= j < |rest| ensures rest[j] != s[0] { assert rest[j] in rest; }
      }
    }
  }

  lemma OwnedRemove<K>(owner: map<K, string>, k: K, o: string)
    ensures Owned(owner - {k}, o) == Owned(owner, o) - (if k in owner && owner[k] == o then 1 else 0)
  {
    var all, left := set x | x in owner && owner[x] == o, set x | x in owner - {k} && (owner - {k})[x] == o;
    if k in owner && owner[k] == o {
      assert all == left + {k};
    } else {
      assert all == left;
    }
  }

  lemma OwnedAdd<K>(owner: map<K, string>, k: K, to: string, o: string)
    requires k !in owner
    ensures Owned(owner[k := to], o) == Owned(owner, o) + (if to == o then 1 else 0)
  {
    assert owner[k := to] - {k} == owner;
    OwnedRemove(owner[k := to], k, o);
  }

  lemma OwnedAtMost<K>(owner: map<K, string>, o: string)
    ensures Owned(owner, o) <= |owner|
  {
    var mine := set k | k in owner && owner[k] == o;
    SubsetSize(mine, owner.Keys);
  }

  /** The ghost queue after a push: it ends with the pushed key. */
  lemma PushGhostSpec<K(!new)>(c: Config, p: Policy<K>, k: K)
    requires Normal(c) && Distinct(p.ghosts) && |p.ghosts| <= c.ghosts
    ensures var q := PushGhost(c, p, k);
            && q == p.(ghosts := q.ghosts, generation := q.generation)
            && Distinct(q.ghosts) && |q.ghosts| <= c.ghosts && q.generation <= U64_MAX
            && q.ghosts != [] && q.ghosts[|q.ghosts| - 1] == k
            && forall x :: x in q.ghosts ==> x == k || x in p.ghosts
  {
    var before := if p.generation >= U64_MAX then [] else p.ghosts;
    WithoutSpec(before, k);
    var q, pushed := PushGhost(c, p, k), Without(before, k) + [k];
    forall i | 0 <= i < |q.ghosts| ensures q.ghosts[i] == k || q.ghosts[i] in p.ghosts {
      var x := q.ghosts[i];
      assert x in pushed;
      if x != k {
        assert x in Without(before, k);
        assert x in before;
      }
    }
  }

  /** Everything in `Inv` except that one queue may be one key over. */
  ghost predicate NearInv<K(!new)>(c: Config, p: Policy<K>, overSmall: nat, overMain: nat) {
    && Distinct(p.small + p.main)
    && Distinct(p.ghosts)
    && (forall k :: k in p.owner <==> k in p.small + p.main)
    && (forall k :: k in p.ghosts ==> k !in p.owner)
    && |p.small| <= c.small + overSmall
    && |p.main| <= c.live - c.small + overMain
    && |p.ghosts| <= c.ghosts
    && |p.recent| <= c.window
    && p.generation <= U64_MAX
    && (forall o :: Owned(p.owner, o) <= c.perOwner)
  }

  lemma EvictSmallSpec<K(!new)>(c: Config, p: Policy<K>)
    requires Normal(c) && NearInv(c, p, 1, 0) && |p.small| == c.small + 1
    ensures var q := EvictSmall(c, p);
            && Inv(c, q) && q.small == p.small[1..] && q.main == p.main
            && q.recent == p.recent && q.totals == p.totals && q.fallback == p.fallback
            && p.small[0] !in q.owner && p.small[0] in q.ghosts
  {
    var k := p.small[0];
    var r := p.(small := p.small[1..], owner := p.owner - {k});
    PushGhostSpec(c, r, k);
    RemoveFront(p.small, p.main);
    forall o ensures Owned(r.owner, o) <= c.perOwner { OwnedRemove(p.owner, k, o); }
  }

  lemma EvictMainSpec<K(!new)>(c: Config, p: Policy<K>)
    requires Normal(c) && NearInv(c, p, 0, 1) && |p.main| == c.live - c.small + 1
    ensures var q := EvictMain(c, p);
            && Inv(c, q) && q.small == p.small && q.main == p.main[1..]
            && q.recent == p.recent && q.totals == p.totals && q.fallback == p.fallback
            && p.main[0] !in q.owner && p.main[0] in q.ghosts
  {
    var k := p.main[0];
    var r := p.(main := p.main[1..], owner := p.owner - {k});
    PushGhostSpec(c, r, k);
    RemoveMiddle(p.small, p.main);
    forall o ensures Owned(r.owner, o) <= c.perOwner { OwnedRemove(p.owner, k, o); }
  }

  lemma RemoveFront<K>(a: seq<K>, b: seq<K>)
    requires a != [] && Distinct(a + b)
    ensures Distinct(a[1..] + b) && a[0] !in a[1..] + b
    ensures forall x :: x in a + b <==> x == a[0] || x in a[1..] + b
  {
    var all := a + b;
    assert all[1..] == a[1..] + b && all == [all[0]] + all[1..];
  }

  lemma RemoveMiddle<K>(a: seq<K>, b: seq<K>)
    requires b != [] && Distinct(a + b)
    ensures Distinct(a + b[1..]) && b[0] !in a + b[1..]
    ensures forall x :: x in a + b <==> x == b[0] || x in a + b[1..]
  {
    var all := a + b;
    forall i | 0 <= i < |a + b[1..]| ensures (a + b[1..])[i] == all[if i < |a| then i else i + 1] {}
    assert all[|a|] == b[0];
  }

  lemma {:induction false} EnforceSmallSpec<K(!new)>(c: Config, p: Policy<K>)
    requires Normal(c) && NearInv(c, p, 1, 0)
    ensures var q := EnforceLive(c, EnforceSmall(c, p));
            && q == EnforceSmall(c, p) && Inv(c, q) && q.main == p.main
            && q.small == (if |p.small| > c.small then p.small[1..] else p.small)
            && q.recent == p.recent && q.totals == p.totals && q.fallback == p.fallback
  {
    if |p.small| > c.small { EvictSmallSpec(c, p); }
  }

  lemma {:induction false} EnforceMainSpec<K(!new)>(c: Config, p: Policy<K>)
    requires Normal(c) && NearInv(c, p, 0, 1)
    ensures var q := EnforceLive(c, EnforceMain(c, p));
            && q == EnforceMain(c, p) && Inv(c, q) && q.small == p.small
            && q.main == (if |p.main| > c.live - c.small then p.main[1..] else p.main)
            && q.recent == p.recent && q.totals == p.totals && q.fallback == p.fallback
  {
    if |p.main| > c.live - c.small { EvictMainSpec(c, p); }
  }

  lemma DistinctSplit<K>(a: seq<K>, b: seq<K>)
    ensures Distinct(a + b) <==> Distinct(a) && Distinct(b) && forall x :: x in a ==> x !in b
  {
    var all := a + b;
    if Distinct(a) && Distinct(b) && forall x :: x in a ==> x !in b {
      forall i, j | 0 <= i < j < |all| ensures all[i] != all[j] {
        if i < |a| <= j { assert all[i] in a && all[j] in b; }
      }
    }
    if Distinct(all) {
      forall i, j | 0 <= i < j < |a| ensures a[i] != a[j] { assert all[i] != all[j]; }
      forall i, j | 0 <= i < j < |b| ensures b[i] != b[j] { assert all[|a| + i] != all[|a| + j]; }
      forall x | x in a ensures x !in b {
        var i :| 0 <= i < |a| && a[i] == x;
        forall j | 0 <= j < |b| ensures b[j] != x { assert all[i] != all[|a| + j]; }
      }
    }
  }

  lemma HitKeepsInv<K(!new)>(c: Config, p: Policy<K>, k: K)
    requires Normal(c) && Inv(c, p) && k in p.main
    ensures Inv(c, p.(main := Without(p.main, k) + [k]))
  {
    var q := p.(main := Without(p.main, k) + [k]);
    DistinctSplit(p.small, p.main);
    WithoutSpec(p.main, k);
    DistinctSplit(Without(p.main, k), [k]);
    assert forall x :: x in q.main <==> x in p.main;
    DistinctSplit(q.small, q.main);
  }

  lemma PromoteKeepsInv<K(!new)>(c: Config, p: Policy<K>, k: K)
    requires Normal(c) && Inv(c, p) && k in p.small
    ensures NearInv(c, p.(small := Without(p.small, k), main := p.main + [k]), 0, 1)
  {
    var q := p.(small := Without(p.small, k), main := p.main + [k]);
    DistinctSplit(p.small, p.main);
    WithoutSpec(p.small, k);
    DistinctSplit(p.main, [k]);
    assert forall x :: x in q.main <==> x in p.main || x == k;
    DistinctSplit(q.small, q.main);
  }

  lemma AdmitMainKeepsInv<K(!new)>(c: Config, p: Policy<K>, o: string, k: K)
    requires Normal(c) && Inv(c, p) && k !in p.owner && Owned(p.owner, o) < c.perOwner
    ensures NearInv(c, p.(ghosts := Without(p.ghosts, k), main := p.main + [k], owner := p.owner[k := o]), 0, 1)
  {
    var q := p.(ghosts := Without(p.ghosts, k), main := p.main + [k], owner := p.owner[k := o]);
    DistinctSplit(p.small, p.main);
    WithoutSpec(p.ghosts, k);
    DistinctSplit(p.main, [k]);
    assert forall x :: x in q.main <==> x in p.main || x == k;
    DistinctSplit(q.small, q.main);
    forall x ensures Owned(q.owner, x) <= c.perOwner { OwnedAdd(p.owner, k, o, x); }
  }

  lemma AdmitSmallKeepsInv<K(!new)>(c: Config, p: Policy<K>, o: string, k: K)
    requires Normal(c) && Inv(c, p) && k !in p.owner && k !in p.ghosts && Owned(p.owner, o) < c.perOwner
    ensures NearInv(c, p.(small := p.small + [k], owner := p.owner[k := o]), 1, 0)
  {
    var q := p.(small := p.small + [k], owner := p.owner[k := o]);
    DistinctSplit(p.small, p.main);
    DistinctSplit(p.small, [k]);
    assert forall x :: x in q.small <==> x in p.small || x == k;
    DistinctSplit(q.small, q.main);
    forall x ensures Owned(q.owner, x) <= c.perOwner { OwnedAdd(p.owner, k, o, x); }
  }

  /** Moving keys keeps the invariant and leaves the accessed key where the decision
      kind says. */
  lemma MoveKeepsInv<K(!new)>(c: Config, p: Policy<K>, o: string, k: K)
    requires Normal(c) && Inv(c, p)
    ensures var q := Move(c, p, o, k);
            && Inv(c, q)
            && q.recent == p.recent && q.totals == p.totals && q.fallback == p.fallback
            && match KindOf(c, p, o, k) {
                 case AdmitSmall => k in q.small
                 case RejectFairnessBudget => q == p && k !in q.owner
                 case _ => k in q.main
               }
  {
    hide NearInv, EnforceMain, EnforceSmall, EnforceLive;
    var q := Move(c, p, o, k);
    assert forall x :: x in p.small + p.main <==> x in p.small || x in p.main;
    match KindOf(c, p, o, k)
    case HitMain =>
      HitKeepsInv(c, p, k);
      assert q.main[|q.main| - 1] == k;
    case PromoteSmallToMain =>
      PromoteKeepsInv(c, p, k);
      EnforceMainSpec(c, p.(small := Without(p.small, k), main := p.main + [k]));
      assert q.main[|q.main| - 1] == k;
    case AdmitFromGhost =>
      AdmitMainKeepsInv(c, p, o, k);
      EnforceMainSpec(c, p.(ghosts := Without(p.ghosts, k), main := p.main + [k], owner := p.owner[k := o]));
      assert q.main[|q.main| - 1] == k;
    case AdmitSmall =>
      AdmitSmallKeepsInv(c, p, o, k);
      EnforceSmallSpec(c, p.(small := p.small + [k], owner := p.owner[k := o]));
      assert q.small[|q.small| - 1] == k;
    case _ =>
  }

  // ---- main results ----

  datatype Op<K> = AccessOp(owner: string, key: K) | ClearOp

  function Apply<K(==)>(c: Config, p: Policy<K>, op: Op<K>): Policy<K>
    requires c.small <= c.live
  {
    match op
    case AccessOp(o, k) => Access(c, p, o, k)
    case ClearOp => ClearFallback(p)
  }

  function Run<K(==)>(c: Config, p: Policy<K>, ops: seq<Op<K>>): Policy<K>
    requires c.small <= c.live
  {
    if ops == [] then p else Apply(c, Run(c, p, ops[..|ops| - 1]), ops[|ops| - 1])
  }

  lemma AccessKeepsInv<K(!new)>(c: Config, p: Policy<K>, o: string, k: K)
    requires Normal(c) && Inv(c, p)
    ensures Inv(c, Access(c, p, o, k))
  {
    if p.fallback.None? {
      MoveKeepsInv(c, p, o, k);
      var moved, q := Move(c, p, o, k), Access(c, p, o, k);
      assert q.small == moved.small && q.main == moved.main && q.owner == moved.owner && q.ghosts == moved.ghosts;
    }
  }

  /** Every sequence of accesses and clears, from a new policy with any requested
      configuration, keeps the queues disjoint and within capacity and every owner
      within its budget. */
  lemma {:induction false} EveryRunKeepsInv<K(!new)>(requested: Config, ops: seq<Op<K>>)
    ensures var c := Normalize(requested); Inv(c, Run(c, New<K>(), ops))
    decreases |ops|
  {
    var c := Normalize(requested);
    if ops == [] {
      forall o ensures Owned(New<K>().owner, o) <= c.perOwner { OwnedAtMost(New<K>().owner, o); }
    } else {
      EveryRunKeepsInv(requested, ops[..|ops| - 1]);
      var p := Run(c, New<K>(), ops[..|ops| - 1]);
      match ops[|ops| - 1]
      case AccessOp(o, k) => AccessKeepsInv(c, p, o, k);
      case ClearOp => assert ClearFallback(p).owner == p.owner;
    }
  }

  /** The key is where the tier says. A bypassed access claims nothing. */
  predicate InTier<K(==)>(p: Policy<K>, k: K, tier: Tier) {
    match tier
    case Small => k in p.small
    case Main => k in p.main
    case Ghost => k in p.ghosts
    case Fallback => true
  }

  /** The reported tier is wrong exactly for an owner at its budget who asks for a key
      that is neither live nor a ghost: it is reported as `Small` and is in no queue.
      Reported depths are within capacity. */
  lemma TierReport<K(!new)>(c: Config, p: Policy<K>, o: string, k: K)
    requires Normal(c) && Inv(c, p)
    ensures var d, q := Decide(c, p, o, k), Access(c, p, o, k);
            && (!InTier(q, k, d.tier)
                <==> p.fallback.None? && k !in p.owner && k !in p.ghosts && Owned(p.owner, o) >= c.perOwner)
            && (!InTier(q, k, d.tier) ==> d.tier == Small && k !in q.small && k !in q.main && k !in q.ghosts)
            && (d.tier == Ghost ==> k !in q.owner)
            && (d.tier == Fallback <==> p.fallback.Some?)
            && d.liveDepth <= c.live && d.ghostDepth <= c.ghosts
  {
    AccessKeepsInv(c, p, o, k);
    if p.fallback.None? {
      MoveKeepsInv(c, p, o, k);
      assert forall x :: x in p.small + p.main <==> x in p.small || x in p.main;
    }
  }

  /** Two accesses by one owner reach the wrong report when the budget is one key. */
  lemma WrongTierReached<K(!new)>(o: string, a: K, b: K)
    requires a != b
    ensures var c := Config(2, 1, 1, 1, 2, 0, 2);
      var p := Run(c, New<K>(), [AccessOp(o, a)]);
      Normalize(c) == c && Inv(c, p) && Decide(c, p, o, b).tier == Small && !InTier(Access(c, p, o, b), b, Small)
  {
    var c := Config(2, 1, 1, 1, 2, 0, 2);
    var ops := [AccessOp(o, a)];
    var p := Run(c, New<K>(), ops);
    EveryRunKeepsInv(c, ops);
    OneAccess(c, o, a);
    OwnedAdd(New<K>().owner, a, o, o);
    TierReport(c, p, o, b);
  }

  lemma OneAccess<K>(c: Config, o: string, a: K)
    requires c == Config(2, 1, 1, 1, 2, 0, 2)
    ensures var p := Run(c, New<K>(), [AccessOp(o, a)]);
      p.owner == New<K>().owner[a := o] && p.small == [a] && p.main == [] && p.ghosts == [] && p.fallback.None?
  {
    var n := New<K>();
    OwnedAtMost(n.owner, o);
    var ops := [AccessOp(o, a)];
    assert ops[..0] == [] && Run(c, n, ops[..0]) == n;
    assert KindOf(c, n, o, a) == AdmitSmall;
    var q := n.(small := n.small + [a], owner := n.owner[a := o]);
    assert EnforceLive(c, EnforceSmall(c, q)) == q;
    assert q.small == [a];
  }

  /** The same move without `enforce_live_capacity`. */
  function MoveWithoutLiveCheck<K(==)>(c: Config, p: Policy<K>, o: string, k: K): Policy<K>
    requires c.small <= c.live
  {
    match KindOf(c, p, o, k)
    case HitMain => p.(main := Without(p.main, k) + [k])
    case PromoteSmallToMain => EnforceMain(c, p.(small := Without(p.small, k), main := p.main + [k]))
    case AdmitFromGhost =>
      EnforceMain(c, p.(ghosts := Without(p.ghosts, k), main := p.main + [k], owner := p.owner[k := o]))
    case AdmitSmall => EnforceSmall(c, p.(small := p.small + [k], owner := p.owner[k := o]))
    case _ => p
  }

  /** In every reachable state the live-capacity loop evicts nothing. */
  lemma LiveCheckIsRedundant<K(!new)>(c: Config, p: Policy<K>, o: string, k: K)
    requires Normal(c) && Inv(c, p)
    ensures Move(c, p, o, k) == MoveWithoutLiveCheck(c, p, o, k)
  {
    assert forall x :: x in p.small + p.main <==> x in p.small || x in p.main;
    match KindOf(c, p, o, k)
    case PromoteSmallToMain =>
      PromoteKeepsInv(c, p, k);
      EnforceMainSpec(c, p.(small := Without(p.small, k), main := p.main + [k]));
    case AdmitFromGhost =>
      AdmitMainKeepsInv(c, p, o, k);
      EnforceMainSpec(c, p.(ghosts := Without(p.ghosts, k), main := p.main + [k], owner := p.owner[k := o]));
    case AdmitSmall =>
      AdmitSmallKeepsInv(c, p, o, k);
      EnforceSmallSpec(c, p.(small := p.small + [k], owner := p.owner[k := o]));
    case _ =>
  }

  /** After a start or a clear, no fallback is raised before the window has filled. */
  lemma {:induction false} QuietUntilWindowFull<K>(c: Config, p: Policy<K>, ops: seq<Op<K>>)
    requires c.small <= c.live && p.fallback.None? && p.recent == []
    requires |ops| < c.window && forall i :: 0 <= i < |ops| ==> ops[i].AccessOp?
    ensures Run(c, p, ops).fallback.None? && |Run(c, p, ops).recent| == |ops|
    decreases |ops|
  {
    if ops != [] { QuietUntilWindowFull(c, p, ops[..|ops| - 1]); }
  }

  /** Once a fallback is raised, accesses change nothing until it is cleared. */
  lemma {:induction false} FallbackIsSticky<K>(c: Config, p: Policy<K>, ops: seq<Op<K>>)
    requires c.small <= c.live && p.fallback.Some? && forall i :: 0 <= i < |ops| ==> ops[i].AccessOp?
    ensures Run(c, p, ops) == p
    decreases |ops|
  {
    if ops != [] { FallbackIsSticky(c, p, ops[..|ops| - 1]); }
  }
}
