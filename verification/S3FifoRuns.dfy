/** What callers of the S3-FIFO policy can tell from the decisions they were given: when
    and why a fallback is raised, and what the totals count. And what one access does to
    the queues, without its eviction loops. */
module S3FifoRuns {
  import opened Integers
  import opened S3Fifo
  import opened Sequences
  import opened Wrappers

  /** A configuration is changed only where it must be, to the nearest value that works. */
  lemma NormalizedIsNearest(c: Config)
    ensures var n := Normalize(c);
      && (Normal(c) ==> n == c)
      && n.live == (if c.live < 2 then 2 else c.live)
      && n.small == (if c.small < 1 then 1 else if c.small >= n.live then n.live - 1 else c.small)
      && n.ghosts == (if c.ghosts < 1 then 1 else c.ghosts) && n.perOwner == (if c.perOwner < 1 then 1 else c.perOwner)
      && n.window == (if c.window < 1 then 1 else c.window)
      && n.minGhostHits == (if c.minGhostHits > n.window then n.window else c.minGhostHits)
      && n.maxRejections == (if c.maxRejections > n.window then n.window else c.maxRejections)
  {
  }

  /** The decisions handed out, one for every access. */
  function Decisions<K(==)>(c: Config, p: Policy<K>, ops: seq<Op<K>>): seq<Decision>
    requires c.small <= c.live
  {
    if ops == [] then []
    else
      var init, op := ops[..|ops| - 1], ops[|ops| - 1];
      var before := Decisions(c, p, init);
      if op.AccessOp? then before + [Decide(c, Run(c, p, init), op.owner, op.key)] else before
  }

  ghost predicate Accesses<K>(ops: seq<Op<K>>) { forall i :: 0 <= i < |ops| ==> ops[i].AccessOp? }

  /** A policy at its start, or just after its fallback was cleared. */
  ghost predicate Started<K>(p: Policy<K>) { p.fallback.None? && p.recent == [] }

  ghost function HowMany(ds: seq<Decision>, f: Decision -> bool): nat { |Places(ds, f)| }

  /** The window is full and holds too few ghost hits. */
  ghost predicate Starved(c: Config, ds: seq<Decision>) {
    |ds| >= c.window && HowMany(ds[|ds| - c.window..], (d: Decision) => d.ghostHit) < c.minGhostHits
  }

  /** The window is full and holds too many rejections. */
  ghost predicate Unfair(c: Config, ds: seq<Decision>) {
    |ds| >= c.window && HowMany(ds[|ds| - c.window..], (d: Decision) => d.kind.RejectFairnessBudget?) > c.maxRejections
  }

  // ---- the window ----

  function SignalOf(d: Decision): Signal { Signal(d.ghostHit, d.kind == RejectFairnessBudget) }

  lemma NewestMore<T>(s: seq<T>, x: T, n: nat)
    ensures Newest(Newest(s, n) + [x], n) == Newest(s + [x], n)
  {
  }

  /** The window holds the signals of the latest decisions. */
  lemma {:induction false} RecentAreLatest<K>(c: Config, p: Policy<K>, ops: seq<Op<K>>)
    requires c.small <= c.live && Started(p) && Accesses(ops)
    requires ops == [] || Run(c, p, ops[..|ops| - 1]).fallback.None?
    ensures Run(c, p, ops).recent == Newest(Map(Decisions(c, p, ops), SignalOf), c.window)
    ensures |Decisions(c, p, ops)| == |ops|
  {
    hide Newest, Move, KindOf, IsGhostHit;
    if ops == [] {
      RecentLength([], c.window);
    } else {
      var init, op := ops[..|ops| - 1], ops[|ops| - 1];
      NoFallbackBefore(c, p, init);
      RecentAreLatest(c, p, init);
      var before, d := Decisions(c, p, init), Decide(c, Run(c, p, init), op.owner, op.key);
      assert Map(before + [d], SignalOf) == Map(before, SignalOf) + [SignalOf(d)];
      NewestMore(Map(before, SignalOf), SignalOf(d), c.window);
    }
  }

  lemma NoFallbackBefore<K>(c: Config, p: Policy<K>, ops: seq<Op<K>>)
    requires c.small <= c.live && Accesses(ops) && Run(c, p, ops).fallback.None?
    ensures ops == [] || Run(c, p, ops[..|ops| - 1]).fallback.None?
  {
    hide Move, Evaluate;
  }

  lemma CountOfMap<T, U>(s: seq<T>, f: T -> U, p: U -> bool, q: T -> bool)
    requires forall x :: q(x) <==> p(f(x))
    ensures Count(Map(s, f), p) == |Places(s, q)|
  {
    CountIsPlaces(Map(s, f), p);
    assert Places(Map(s, f), p) == Places(s, q);
  }

  lemma LatestCounts(ds: seq<Decision>, window: nat)
    requires window <= |ds|
    ensures var recent, last := Newest(Map(ds, SignalOf), window), ds[|ds| - window..];
      && Count(recent, (s: Signal) => s.ghostHit) == HowMany(last, (d: Decision) => d.ghostHit)
      && Count(recent, (s: Signal) => s.rejected) == HowMany(last, (d: Decision) => d.kind.RejectFairnessBudget?)
  {
    var last := ds[|ds| - window..];
    assert Newest(Map(ds, SignalOf), window) == Map(last, SignalOf);
    CountOfMap(last, SignalOf, (s: Signal) => s.ghostHit, (d: Decision) => d.ghostHit);
    CountOfMap(last, SignalOf, (s: Signal) => s.rejected, (d: Decision) => d.kind.RejectFairnessBudget?);
  }

  // ---- when a fallback is raised ----

  /** While no fallback is in force, an access raises one exactly if the latest window of
      decisions is full and starved of ghost hits, or else unfair. */
  lemma FallbackRaisedIff<K>(c: Config, p: Policy<K>, ops: seq<Op<K>>)
    requires c.small <= c.live && 0 < c.window && Started(p) && Accesses(ops)
    requires ops == [] || Run(c, p, ops[..|ops| - 1]).fallback.None?
    ensures var raised, ds := Run(c, p, ops).fallback, Decisions(c, p, ops);
      && (raised == Some(SignalQualityInsufficient) <==> Starved(c, ds))
      && (raised == Some(FairnessInstability) <==> !Starved(c, ds) && Unfair(c, ds))
      && (raised == None <==> !Starved(c, ds) && !Unfair(c, ds))
  {
    hide Newest, Decisions, Starved, Unfair, Evaluate, Run;
    RecentAreLatest(c, p, ops);
    EvaluateMeans(c, Decisions(c, p, ops));
    EvaluatedAfter(c, p, ops);
  }

  lemma EvaluateMeans(c: Config, ds: seq<Decision>)
    ensures var raised := Evaluate(c, Newest(Map(ds, SignalOf), c.window));
      && (raised == Some(SignalQualityInsufficient) <==> Starved(c, ds))
      && (raised == Some(FairnessInstability) <==> !Starved(c, ds) && Unfair(c, ds))
      && (raised == None <==> !Starved(c, ds) && !Unfair(c, ds))
  {
    hide Newest, HowMany, Count;
    RecentLength(ds, c.window);
    if |ds| >= c.window { LatestCounts(ds, c.window); }
  }

  lemma RecentLength(ds: seq<Decision>, window: nat)
    ensures |Newest(Map(ds, SignalOf), window)| == if |ds| < window then |ds| else window
  {
  }

  lemma EvaluatedAfter<K>(c: Config, p: Policy<K>, ops: seq<Op<K>>)
    requires c.small <= c.live && 0 < c.window && Started(p) && Accesses(ops)
    requires ops == [] || Run(c, p, ops[..|ops| - 1]).fallback.None?
    ensures var q := Run(c, p, ops); q.fallback == Evaluate(c, q.recent)
  {
    if ops == [] {
      assert Evaluate(c, []) == None;
    } else {
      hide Move, Evaluate;
    }
  }

  lemma {:induction false} DecisionsPrefix<K>(c: Config, p: Policy<K>, ops: seq<Op<K>>, n: nat)
    requires c.small <= c.live && Accesses(ops) && n <= |ops|
    ensures |Decisions(c, p, ops)| == |ops| && Decisions(c, p, ops[..n]) == Decisions(c, p, ops)[..n]
    decreases |ops|
  {
    hide Decide;
    if ops != [] {
      var init := ops[..|ops| - 1];
      DecisionsPrefix(c, p, init, if n < |ops| then n else n - 1);
      if n < |ops| { assert init[..n] == ops[..n]; } else { assert ops[..n] == ops; }
    }
  }

  /** The decisions up to some access are the first to be starved or unfair, and `reason`
      says which. */
  ghost predicate FirstTrip(c: Config, ds: seq<Decision>, n: nat, reason: Reason) {
    && n <= |ds|
    && (forall m: nat :: m < n ==> !Starved(c, ds[..m]) && !Unfair(c, ds[..m]))
    && match reason
       case SignalQualityInsufficient => Starved(c, ds[..n])
       case FairnessInstability => !Starved(c, ds[..n]) && Unfair(c, ds[..n])
  }

  /** Over a whole run: the fallback in force is the one of the first access whose window
      tripped, and there is none exactly if no window did. */
  lemma {:induction false} FallbackInForceIff<K>(c: Config, p: Policy<K>, ops: seq<Op<K>>, reason: Reason)
    requires c.small <= c.live && 0 < c.window && Started(p) && Accesses(ops)
    ensures Run(c, p, ops).fallback == Some(reason) <==> exists n: nat :: FirstTrip(c, Decisions(c, p, ops), n, reason)
    decreases |ops|
  {
    hide Starved, Unfair, Move, Decide, Decisions, Evaluate;
    var ds := Decisions(c, p, ops);
    DecisionsPrefix(c, p, ops, |ops|);
    assert ds[..|ops|] == ds;
    if n: nat :| FirstTrip(c, ds, n, reason) { TripInForce(c, p, ops, n, reason); }
    if Run(c, p, ops).fallback == Some(reason) {
      var n := TripOf(c, p, ops, reason);
    }
  }

  lemma {:induction false} QuietRun<K>(c: Config, p: Policy<K>, ops: seq<Op<K>>)
    requires c.small <= c.live && 0 < c.window && Started(p) && Accesses(ops)
    requires var ds := Decisions(c, p, ops);
      forall m: nat :: m <= |ds| ==> !Starved(c, ds[..m]) && !Unfair(c, ds[..m])
    ensures Run(c, p, ops).fallback.None?
    decreases |ops|
  {
    hide Starved, Unfair, Move, Decide, Decisions, Evaluate;
    if ops != [] {
      var ds, init := Decisions(c, p, ops), ops[..|ops| - 1];
      DecisionsPrefix(c, p, ops, |ops| - 1);
      var before := Decisions(c, p, init);
      assert forall m: nat :: m <= |before| ==> before[..m] == ds[..m];
      QuietRun(c, p, init);
      FallbackRaisedIff(c, p, ops);
      assert ds[..|ds|] == ds;
    }
  }

  lemma TripInForce<K>(c: Config, p: Policy<K>, ops: seq<Op<K>>, n: nat, reason: Reason)
    requires c.small <= c.live && 0 < c.window && Started(p) && Accesses(ops)
    requires FirstTrip(c, Decisions(c, p, ops), n, reason)
    ensures Run(c, p, ops).fallback == Some(reason)
  {
    hide Starved, Unfair, Move, Decide, Decisions, Evaluate, Run;
    var ds := Decisions(c, p, ops);
    DecisionsPrefix(c, p, ops, |ops|);
    DecisionsPrefix(c, p, ops, n);
    NeverAtOnce(c, ds);
    assert n > 0;
    var upTo := ops[..n];
    var init := upTo[..n - 1];
    assert init == ops[..n - 1];
    DecisionsPrefix(c, p, ops, n - 1);
    var before := Decisions(c, p, init);
    assert forall m: nat :: m <= |before| ==> before[..m] == ds[..m];
    QuietRun(c, p, init);
    FallbackRaisedIff(c, p, upTo);
    StaysRaised(c, p, ops, n);
  }

  lemma NeverAtOnce(c: Config, ds: seq<Decision>)
    requires 0 < c.window
    ensures !Starved(c, ds[..0]) && !Unfair(c, ds[..0])
  {
  }

  lemma {:induction false} StaysRaised<K>(c: Config, p: Policy<K>, ops: seq<Op<K>>, n: nat)
    requires c.small <= c.live && Accesses(ops) && n <= |ops| && Run(c, p, ops[..n]).fallback.Some?
    ensures Run(c, p, ops) == Run(c, p, ops[..n])
    decreases |ops|
  {
    hide Move, Evaluate;
    if n < |ops| {
      var init := ops[..|ops| - 1];
      assert init[..n] == ops[..n];
      StaysRaised(c, p, init, n);
    } else {
      assert ops[..n] == ops;
    }
  }

  lemma {:induction false} TripOf<K>(c: Config, p: Policy<K>, ops: seq<Op<K>>, reason: Reason) returns (n: nat)
    requires c.small <= c.live && 0 < c.window && Started(p) && Accesses(ops) && Run(c, p, ops).fallback == Some(reason)
    ensures FirstTrip(c, Decisions(c, p, ops), n, reason)
    decreases |ops|
  {
    hide Starved, Unfair, Move, Decide, Decisions, Evaluate;
    var ds, init := Decisions(c, p, ops), ops[..|ops| - 1];
    DecisionsPrefix(c, p, ops, |ops| - 1);
    var before := Decisions(c, p, init);
    assert forall m: nat :: m <= |before| ==> before[..m] == ds[..m];
    if Run(c, p, init).fallback.Some? {
      StaysRaised(c, p, ops, |ops| - 1);
      n := TripOf(c, p, init, reason);
    } else {
      n := |ops|;
      FallbackRaisedIff(c, p, ops);
      QuietBefore(c, p, init);
      assert ds[..n] == ds;
    }
  }

  /** With no fallback in force at the end, no window tripped. */
  lemma {:induction false} QuietBefore<K>(c: Config, p: Policy<K>, ops: seq<Op<K>>)
    requires c.small <= c.live && 0 < c.window && Started(p) && Accesses(ops) && Run(c, p, ops).fallback.None?
    ensures var ds := Decisions(c, p, ops);
      forall m: nat :: m <= |ds| ==> !Starved(c, ds[..m]) && !Unfair(c, ds[..m])
    decreases |ops|
  {
    hide Starved, Unfair, Move, Decide, Decisions, Evaluate;
    var ds := Decisions(c, p, ops);
    NoFallbackBefore(c, p, ops);
    FallbackRaisedIff(c, p, ops);
    DecisionsPrefix(c, p, ops, |ops|);
    assert ds[..|ds|] == ds;
    if ops != [] {
      var init := ops[..|ops| - 1];
      DecisionsPrefix(c, p, ops, |ops| - 1);
      QuietBefore(c, p, init);
      assert forall m: nat :: m < |ds| ==> Decisions(c, p, init)[..m] == ds[..m];
    }
  }

  lemma {:induction false} RunAppend<K>(c: Config, p: Policy<K>, a: seq<Op<K>>, b: seq<Op<K>>)
    requires c.small <= c.live
    ensures Run(c, p, a + b) == Run(c, Run(c, p, a), b)
    decreases |b|
  {
    hide Apply;
    if b == [] {
      assert a + b == a;
    } else {
      RunAppend(c, p, a, b[..|b| - 1]);
      assert (a + b)[..|a + b| - 1] == a + b[..|b| - 1];
    }
  }

  /** A clear starts the window over and touches nothing else: whatever came before it,
      the fallback in force depends on the decisions since. */
  lemma FallbackSinceClear<K>(c: Config, p: Policy<K>, before: seq<Op<K>>, after: seq<Op<K>>, reason: Reason)
    requires c.small <= c.live && 0 < c.window && Accesses(after)
    ensures var kept, cleared := Run(c, p, before), Run(c, p, before + [ClearOp]);
      && cleared.small == kept.small && cleared.main == kept.main && cleared.ghosts == kept.ghosts
      && cleared.owner == kept.owner && cleared.generation == kept.generation && cleared.totals == kept.totals
      && (Run(c, p, before + [ClearOp] + after).fallback == Some(reason) <==>
          exists n: nat :: FirstTrip(c, Decisions(c, cleared, after), n, reason))
  {
    hide FirstTrip, Decisions;
    var cleared := Run(c, p, before + [ClearOp]);
    assert (before + [ClearOp])[..|before|] == before;
    assert Started(cleared);
    RunAppend(c, p, before + [ClearOp], after);
    FallbackInForceIff(c, cleared, after, reason);
  }

  /** The depths a decision reports are the sizes of the queues after the access; the live
      depth is the number of keys with an owner. */
  lemma DepthsReported<K(!new)>(c: Config, p: Policy<K>, o: string, k: K)
    requires Normal(c) && Inv(c, p)
    ensures var d, q := Decide(c, p, o, k), Access(c, p, o, k);
      && d.smallDepth == |q.small| <= c.small && d.mainDepth == |q.main| <= c.live - c.small
      && d.ghostDepth == |q.ghosts| <= c.ghosts && d.liveDepth == |q.owner| == |q.small| + |q.main|
      && d.reason == q.fallback
  {
    AccessKeepsInv(c, p, o, k);
    var q := Access(c, p, o, k);
    hide Access;
    SetSize(q.small + q.main);
    assert q.owner.Keys == set x | x in q.small + q.main;
  }

  // ---- what the totals count ----

  lemma HowManyMore(ds: seq<Decision>, d: Decision, f: Decision -> bool)
    ensures HowMany(ds + [d], f) == HowMany(ds, f) + (if f(d) then 1 else 0)
  {
    var places := Places(ds, f);
    assert Places(ds + [d], f) == if f(d) then places + {|ds|} else places;
  }

  function Capped(n: nat): nat { if n > U64_MAX then U64_MAX else n }

  ghost function Counted(ds: seq<Decision>): Totals {
    Totals(Capped(HowMany(ds, (d: Decision) => d.ghostHit)),
           Capped(HowMany(ds, (d: Decision) => d.kind.AdmitSmall? || d.kind.AdmitFromGhost?)),
           Capped(HowMany(ds, (d: Decision) => d.kind.PromoteSmallToMain?)),
           Capped(HowMany(ds, (d: Decision) => d.kind.RejectFairnessBudget?)))
  }

  lemma CountedMore(ds: seq<Decision>, d: Decision)
    ensures Counted(ds + [d]) == Tally(Counted(ds), d.kind, d.ghostHit)
  {
    hide HowMany;
    HowManyMore(ds, d, (d: Decision) => d.ghostHit);
    HowManyMore(ds, d, (d: Decision) => d.kind.AdmitSmall? || d.kind.AdmitFromGhost?);
    HowManyMore(ds, d, (d: Decision) => d.kind.PromoteSmallToMain?);
    HowManyMore(ds, d, (d: Decision) => d.kind.RejectFairnessBudget?);
  }

  /** Over every run, clears included, the totals are the numbers of decisions of their
      kind, up to the largest 64-bit number. */
  lemma {:induction false} TotalsCountDecisions<K>(c: Config, ops: seq<Op<K>>)
    requires c.small <= c.live
    ensures Run(c, New<K>(), ops).totals == Counted(Decisions(c, New<K>(), ops))
    decreases |ops|
  {
    hide Move, KindOf, IsGhostHit, Evaluate, Tally, Counted;
    if ops == [] {
      NothingCounted();
    } else {
      var init, op := ops[..|ops| - 1], ops[|ops| - 1];
      TotalsCountDecisions(c, init);
      if op.AccessOp? {
        var before, d := Run(c, New<K>(), init), Decide(c, Run(c, New<K>(), init), op.owner, op.key);
        CountedMore(Decisions(c, New<K>(), init), d);
        BypassCountsNothing(before.totals);
      }
    }
  }

  lemma NothingCounted()
    ensures Counted([]) == Totals(0, 0, 0, 0)
  {
  }

  lemma BypassCountsNothing(t: Totals)
    ensures Tally(t, FallbackBypass, false) == t
  {
  }

  // ---- one access, without its loops ----

  /** Keys pushed out of a full queue become the newest ghosts and lose their owner. */
  ghost predicate PushedOut<K(!new)>(c: Config, before: Policy<K>, after: Policy<K>, out: seq<K>) {
    if out == [] then
      after.ghosts == before.ghosts && after.owner == before.owner && after.generation == before.generation
    else
      && |out| == 1 && after.owner == before.owner - {out[0]}
      && after.ghosts == Newest((if before.generation < U64_MAX then before.ghosts else []) + out, c.ghosts)
      && after.generation == (if before.generation < U64_MAX then before.generation else 0) + 1
  }

  /** The main queue after one more key, and what that pushes out. */
  ghost predicate JoinsMain<K(!new)>(c: Config, before: Policy<K>, after: Policy<K>, k: K)
    requires Normal(c)
  {
    var room := c.live - c.small;
    && after.main == Newest(before.main + [k], room)
    && PushedOut(c, before, after, before.main[..if |before.main| < room then 0 else 1])
  }

  ghost predicate JoinsSmall<K(!new)>(c: Config, before: Policy<K>, after: Policy<K>, k: K)
    requires Normal(c)
  {
    && after.small == Newest(before.small + [k], c.small)
    && PushedOut(c, before, after, before.small[..if |before.small| < c.small then 0 else 1])
  }

  /** What an access does to the queues: a main key becomes the newest of main; a small key
      moves there; a key of an owner at its budget stays out; a ghost comes back to main; any
      other key becomes the newest of small. At most one key, the oldest of the queue that
      grew, makes room. */
  lemma MoveExact<K(!new)>(c: Config, p: Policy<K>, o: string, k: K)
    requires Normal(c) && Inv(c, p)
    ensures var q := Move(c, p, o, k);
      if k in p.main then q == p.(main := Without(p.main, k) + [k])
      else if k in p.small then
        q.small == Without(p.small, k) && JoinsMain(c, p, q, k)
      else if Owned(p.owner, o) >= c.perOwner then q == p
      else if k in p.ghosts then
        q.small == p.small && JoinsMain(c, p.(ghosts := Without(p.ghosts, k), owner := p.owner[k := o]), q, k)
      else q.main == p.main && JoinsSmall(c, p.(owner := p.owner[k := o]), q, k)
  {
    LiveKeys(c, p);
    if k in p.main {
    } else if k in p.small {
      PromoteExact(c, p, o, k);
    } else if Owned(p.owner, o) < c.perOwner {
      if k in p.ghosts { ReadmitExact(c, p, o, k); } else { AdmitExact(c, p, o, k); }
    }
  }

  lemma LiveKeys<K(!new)>(c: Config, p: Policy<K>)
    requires Normal(c) && Inv(c, p)
    ensures forall x :: x in p.owner <==> x in p.small || x in p.main
    ensures |p.main| <= c.live - c.small && |p.small| <= c.small
  {
    assert forall x :: x in p.small + p.main <==> x in p.small || x in p.main;
  }

  lemma PromoteExact<K(!new)>(c: Config, p: Policy<K>, o: string, k: K)
    requires Normal(c) && Inv(c, p) && k !in p.main && k in p.small
    ensures var q := Move(c, p, o, k); q.small == Without(p.small, k) && JoinsMain(c, p, q, k)
  {
    PromoteKeepsInv(c, p, k);
    LiveKeys(c, p);
    hide Inv, NearInv, EnforceMain, EnforceLive, Owned, Without, Newest;
    MainMakesRoom(c, p.(small := Without(p.small, k), main := p.main + [k]), p.main, k);
  }

  lemma ReadmitExact<K(!new)>(c: Config, p: Policy<K>, o: string, k: K)
    requires Normal(c) && Inv(c, p) && k !in p.main && k !in p.small && Owned(p.owner, o) < c.perOwner && k in p.ghosts
    ensures var q := Move(c, p, o, k);
      q.small == p.small && JoinsMain(c, p.(ghosts := Without(p.ghosts, k), owner := p.owner[k := o]), q, k)
  {
    LiveKeys(c, p);
    AdmitMainKeepsInv(c, p, o, k);
    hide Inv, NearInv, EnforceMain, EnforceLive, Owned, Without, Newest;
    var added := p.(ghosts := Without(p.ghosts, k), main := p.main + [k], owner := p.owner[k := o]);
    MainMakesRoom(c, added, p.main, k);
  }

  lemma AdmitExact<K(!new)>(c: Config, p: Policy<K>, o: string, k: K)
    requires Normal(c) && Inv(c, p) && k !in p.main && k !in p.small && Owned(p.owner, o) < c.perOwner && k !in p.ghosts
    ensures var q := Move(c, p, o, k); q.main == p.main && JoinsSmall(c, p.(owner := p.owner[k := o]), q, k)
  {
    LiveKeys(c, p);
    AdmitSmallKeepsInv(c, p, o, k);
    hide Inv, NearInv, EnforceSmall, EnforceLive, Owned, Newest;
    SmallMakesRoom(c, p.(small := p.small + [k], owner := p.owner[k := o]), p.small, k);
  }

  lemma MainMakesRoom<K(!new)>(c: Config, p: Policy<K>, main: seq<K>, k: K)
    requires Normal(c) && NearInv(c, p, 0, 1) && p.main == main + [k] && |main| <= c.live - c.small
    ensures var q := EnforceLive(c, EnforceMain(c, p));
      && q.small == p.small && q.main == Newest(p.main, c.live - c.small)
      && PushedOut(c, p, q, main[..if |main| < c.live - c.small then 0 else 1])
  {
    EnforceMainSpec(c, p);
    var q := EnforceMain(c, p);
    if |p.main| > c.live - c.small {
      assert p.main[0] in p.small + p.main && p.main[0] in p.owner;
      EvictMainSpec(c, p);
      assert q == EvictMain(c, p);
      PushNew(c, p.(main := p.main[1..], owner := p.owner - {p.main[0]}), p.main[0]);
      assert main[..1] == [p.main[0]];
    } else {
      assert main[..0] == [];
    }
  }

  lemma SmallMakesRoom<K(!new)>(c: Config, p: Policy<K>, small: seq<K>, k: K)
    requires Normal(c) && NearInv(c, p, 1, 0) && p.small == small + [k] && |small| <= c.small
    ensures var q := EnforceLive(c, EnforceSmall(c, p));
      && q.main == p.main && q.small == Newest(p.small, c.small)
      && PushedOut(c, p, q, small[..if |small| < c.small then 0 else 1])
  {
    EnforceSmallSpec(c, p);
    var q := EnforceSmall(c, p);
    if |p.small| > c.small {
      assert p.small[0] in p.small + p.main && p.small[0] in p.owner;
      EvictSmallSpec(c, p);
      assert q == EvictSmall(c, p);
      PushNew(c, p.(small := p.small[1..], owner := p.owner - {p.small[0]}), p.small[0]);
      assert small[..1] == [p.small[0]];
    } else {
      assert small[..0] == [];
    }
  }

  /** A key that is no ghost is pushed behind the others. */
  lemma PushNew<K(!new)>(c: Config, p: Policy<K>, k: K)
    requires k !in p.ghosts
    ensures var q := PushGhost(c, p, k);
      var wraps := p.generation >= U64_MAX;
      && q.ghosts == Newest((if wraps then [] else p.ghosts) + [k], c.ghosts)
      && q.generation == (if wraps then 0 else p.generation) + 1
  {
    WithoutNone(p.ghosts, k);
    WithoutNone([], k);
  }

  /** Taking a key out leaves the others in their order. */
  lemma {:induction false} WithoutKeepsOrder<K>(a: seq<K>, k: K, b: seq<K>)
    requires k !in a
    ensures Without(a + [k] + b, k) == a + b
  {
    var s := a + [k] + b;
    if a == [] {
      assert s[0] == k && s[1..] == b && a + b == b;
    } else {
      WithoutKeepsOrder(a[1..], k, b);
      assert s[0] == a[0] && s[1..] == a[1..] + [k] + b;
      assert [a[0]] + (a[1..] + b) == a + b;
    }
  }

  lemma {:induction false} WithoutNone<K>(s: seq<K>, k: K)
    requires k !in s
    ensures Without(s, k) == s
  {
    if s != [] { WithoutNone(s[1..], k); }
  }
}
