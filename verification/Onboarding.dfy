/** The de-biased onboarding queue: candidates of one repository are ranked among
    themselves and discounted geometrically, so that a popular repository cannot
    flood the queue. Scores are `real`, the logarithm is a parameter known only to be
    non-negative from 1 on, and the rounding of displayed scores is left out. */
module Onboarding {
  import opened Sequences
  import opened Sorting
  import opened Text

  datatype Draft = Draft(
    id: string, repoKey: string, repoCount: nat, repoRank: nat,
    raw: real, relevant: bool, relevanceScore: nat, debiased: real, impact: real)

  // ---- repository counts ----

  function CountOf(keys: seq<string>, k: string): nat { Count(keys, x => x == k) }

  /** `build_repo_counts` */
  method BuildRepoCounts(keys: seq<string>) returns (counts: map<string, nat>)
    ensures forall k :: k in counts <==> k in keys
    ensures forall k :: k in counts ==> counts[k] == CountOf(keys, k)
  {
    counts := map[];
    for i := 0 to |keys|
      invariant forall k :: k in counts <==> k in keys[..i]
      invariant forall k :: k in counts ==> counts[k] == CountOf(keys[..i], k)
    {
      CountStep(keys, i);
      counts := counts[keys[i] := (if keys[i] in counts then counts[keys[i]] else 0) + 1];
    }
    assert keys[..|keys|] == keys;
  }

  lemma CountStep(keys: seq<string>, i: nat)
    requires i < |keys|
    ensures forall k :: k in keys[..i + 1] <==> k in keys[..i] || k == keys[i]
    ensures forall k :: CountOf(keys[..i + 1], k) == CountOf(keys[..i], k) + if keys[i] == k then 1 else 0
    ensures forall k :: k !in keys[..i] ==> CountOf(keys[..i], k) == 0
  {
    assert keys[..i + 1] == keys[..i] + [keys[i]];
    assert keys[..i + 1][..i] == keys[..i];
    forall k | k !in keys[..i] ensures CountOf(keys[..i], k) == 0 {
      CountAbsent(keys[..i], k);
    }
  }

  lemma {:induction false} CountAbsent(keys: seq<string>, k: string)
    requires k !in keys
    ensures CountOf(keys, k) == 0
  {
    if keys != [] { CountAbsent(keys[..|keys| - 1], k); }
  }

  // ---- ranks inside a repository ----

  /** Indexes of one repository's drafts, in order. */
  function Members(s: seq<Draft>, repo: string): seq<nat> {
    if s == [] then []
    else
      var n := |s| - 1;
      Members(s[..n], repo) + if s[n].repoKey == repo then [n] else []
  }

  /** What the comparator looks at. */
  datatype Slot = Slot(index: nat, raw: real, id: string)

  /** Higher raw impact first, then the smaller id. */
  predicate SlotLe(a: Slot, b: Slot) { a.raw > b.raw || (a.raw == b.raw && StrLe(a.id, b.id)) }

  function Slots(s: seq<Draft>, members: seq<nat>): (r: seq<Slot>)
    requires forall k :: 0 <= k < |members| ==> members[k] < |s|
    ensures |r| == |members|
    ensures forall k :: 0 <= k < |r| ==> r[k] == Slot(members[k], s[members[k]].raw, s[members[k]].id)
  {
    seq(|members|, k requires 0 <= k < |members| => Slot(members[k], s[members[k]].raw, s[members[k]].id))
  }

  /** The repository's drafts, best first. */
  function Ranked(s: seq<Draft>, repo: string): seq<Slot> {
    MembersSpec(s, repo);
    SortBy(Slots(s, Members(s, repo)), SlotLe)
  }

  lemma {:induction false} MembersSpec(s: seq<Draft>, repo: string)
    ensures forall k :: 0 <= k < |Members(s, repo)| ==>
      Members(s, repo)[k] < |s| && s[Members(s, repo)[k]].repoKey == repo
    ensures forall i :: 0 <= i < |s| && s[i].repoKey == repo ==> i in Members(s, repo)
    ensures Distinct(Members(s, repo))
  {
    if s != [] { MembersSpec(s[..|s| - 1], repo); }
  }

  lemma {:induction false} MembersCount(s: seq<Draft>, repo: string)
    ensures |Members(s, repo)| == CountOf(Map(s, (d: Draft) => d.repoKey), repo)
  {
    var keys := Map(s, (d: Draft) => d.repoKey);
    if s != [] {
      var n := |s| - 1;
      MembersCount(s[..n], repo);
      assert keys[..n] == Map(s[..n], (d: Draft) => d.repoKey);
    }
  }

  lemma SlotComparator()
    ensures Comparator(SlotLe)
  {
    StrLeComparator();
    forall a: Slot, b: Slot, c: Slot | SlotLe(a, b) && SlotLe(b, c) ensures SlotLe(a, c) {
      if a.raw == b.raw == c.raw { StrLeTransitive(a.id, b.id, c.id); }
    }
    forall a: Slot, b: Slot ensures SlotLe(a, b) || SlotLe(b, a) { StrLeTotal(a.id, b.id); }
  }

  /** The ranking lists every draft of the repository exactly once, best raw impact first. */
  lemma RankedSpec(s: seq<Draft>, repo: string)
    ensures var r := Ranked(s, repo);
      && |r| == |Members(s, repo)|
      && (forall p :: 0 <= p < |r| ==> r[p].index < |s| && s[r[p].index].repoKey == repo
                                       && r[p].raw == s[r[p].index].raw && r[p].id == s[r[p].index].id)
      && (forall i :: 0 <= i < |s| && s[i].repoKey == repo ==> exists p :: 0 <= p < |r| && r[p].index == i)
      && (forall p, q :: 0 <= p < q < |r| ==> r[p].index != r[q].index && SlotLe(r[p], r[q]))
  {
    hide StrLe, Members, SortBy;
    MembersSpec(s, repo);
    RankedPermutes(s, repo);
    RankedOrder(s, repo);
    RankedDistinct(s, repo);
    var members := Members(s, repo);
    var slots, r := Slots(s, members), Ranked(s, repo);
    SameElements(r, slots);
    forall p | 0 <= p < |r|
      ensures r[p].index < |s| && s[r[p].index].repoKey == repo
      ensures r[p].raw == s[r[p].index].raw && r[p].id == s[r[p].index].id
    {
      assert r[p] in slots;
    }
    forall i | 0 <= i < |s| && s[i].repoKey == repo ensures exists p :: 0 <= p < |r| && r[p].index == i {
      var k :| 0 <= k < |members| && members[k] == i;
      assert slots[k] in r;
    }
  }

  lemma RankedOrder(s: seq<Draft>, repo: string)
    ensures Sorted(Ranked(s, repo), SlotLe)
  {
    hide StrLe, Members, SortBy;
    MembersSpec(s, repo);
    SlotComparator();
    SortSorts(Slots(s, Members(s, repo)), SlotLe);
  }

  lemma RankedDistinct(s: seq<Draft>, repo: string)
    ensures forall p, q :: 0 <= p < q < |Ranked(s, repo)| ==> Ranked(s, repo)[p].index != Ranked(s, repo)[q].index
  {
    hide StrLe, Members, Ranked;
    MembersSpec(s, repo);
    RankedPermutes(s, repo);
    var slots, r := Slots(s, Members(s, repo)), Ranked(s, repo);
    var index := (x: Slot) => x.index;
    MapPermutes(slots, r, index);
    assert Map(slots, index) == Members(s, repo);
    PermutedDistinct(Members(s, repo), Map(r, index));
    forall p, q | 0 <= p < q < |r| ensures r[p].index != r[q].index {
      assert Map(r, index)[p] != Map(r, index)[q];
    }
  }

  /** `t` is `s` with nothing but repository ranks filled in: the draft at place `p` of its
      repository's ranking has rank `p + 1`. */
  ghost predicate RanksAssigned(s: seq<Draft>, t: seq<Draft>) {
    && |t| == |s| && (forall i :: 0 <= i < |s| ==> t[i] == s[i].(repoRank := t[i].repoRank))
    && forall i :: 0 <= i < |s| ==> RankedAt(s, i, t[i].repoRank)
  }

  ghost predicate RankedAt(s: seq<Draft>, i: nat, rank: nat)
    requires i < |s|
  {
    var r := Ranked(s, s[i].repoKey);
    1 <= rank <= |r| && r[rank - 1].index == i
  }

  method GroupByRepo(s: seq<Draft>) returns (perRepo: map<string, seq<nat>>)
    ensures forall repo :: repo in perRepo <==> Members(s, repo) != []
    ensures forall repo :: repo in perRepo ==> perRepo[repo] == Members(s, repo)
  {
    perRepo := map[];
    for i := 0 to |s|
      invariant forall repo :: repo in perRepo <==> Members(s[..i], repo) != []
      invariant forall repo :: repo in perRepo ==> perRepo[repo] == Members(s[..i], repo)
    {
      MembersStep(s, i);
      var key := s[i].repoKey;
      perRepo := perRepo[key := (if key in perRepo then perRepo[key] else []) + [i]];
    }
    assert s[..|s|] == s;
  }

  lemma MembersStep(s: seq<Draft>, i: nat)
    requires i < |s|
    ensures forall repo :: Members(s[..i + 1], repo) == Members(s[..i], repo) + if s[i].repoKey == repo then [i] else []
  {
    assert s[..i + 1][..i] == s[..i];
  }

  /** `assign_repo_rank`, in place. The repositories are visited in some order. */
  method AssignRepoRank(drafts: array<Draft>)
    modifies drafts
    ensures RanksAssigned(old(drafts[..]), drafts[..])
  {
    ghost var s := drafts[..];
    var perRepo := GroupByRepo(drafts[..]);
    var left := perRepo.Keys;
    AllGrouped(s);
    while left != {}
      invariant forall repo :: repo in perRepo <==> Members(s, repo) != []
      invariant forall repo :: repo in perRepo ==> perRepo[repo] == Members(s, repo)
      invariant left <= perRepo.Keys && drafts.Length == |s|
      invariant forall i :: 0 <= i < |s| ==> drafts[i] == s[i].(repoRank := drafts[i].repoRank)
      invariant forall i :: 0 <= i < |s| && s[i].repoKey !in left ==> RankedAt(s, i, drafts[i].repoRank)
      decreases |left|
    {
      var repo :| repo in left;
      RankRepo(drafts, s, repo, perRepo[repo]);
      left := left - {repo};
    }
    assert forall i :: 0 <= i < |s| ==> drafts[..][i] == drafts[i];
  }

  lemma AllGrouped(s: seq<Draft>)
    ensures forall i :: 0 <= i < |s| ==> Members(s, s[i].repoKey) != []
  {
    forall i | 0 <= i < |s| ensures Members(s, s[i].repoKey) != [] { MembersSpec(s, s[i].repoKey); }
  }

  /** The body of the loop over repositories: sort the indexes, write the ranks. */
  method RankRepo(drafts: array<Draft>, ghost s: seq<Draft>, repo: string, members: seq<nat>)
    requires drafts.Length == |s| && members == Members(s, repo)
    requires forall i :: 0 <= i < |s| ==> drafts[i] == s[i].(repoRank := drafts[i].repoRank)
    modifies drafts
    ensures forall i :: 0 <= i < |s| ==> drafts[i] == s[i].(repoRank := drafts[i].repoRank)
    ensures forall i :: 0 <= i < |s| && s[i].repoKey != repo ==> drafts[i] == old(drafts[i])
    ensures forall i :: 0 <= i < |s| && s[i].repoKey == repo ==> RankedAt(s, i, drafts[i].repoRank)
  {
    hide Members, SortBy;
    MembersSpec(s, repo);
    RankedSpec(s, repo);
    var slots := Slots(drafts[..], members);
    assert slots == Slots(s, members);
    var ranking := SortBy(slots, SlotLe);
    for p := 0 to |ranking|
      invariant forall i :: 0 <= i < |s| ==> drafts[i] == s[i].(repoRank := drafts[i].repoRank)
      invariant forall i :: 0 <= i < |s| && s[i].repoKey != repo ==> drafts[i] == old(drafts[i])
      invariant forall q :: 0 <= q < p ==> drafts[ranking[q].index].repoRank == q + 1
    {
      var i := ranking[p].index;
      drafts[i] := drafts[i].(repoRank := p + 1);
    }
  }

  // ---- what the ranks mean ----

  function OneTo(n: nat): seq<nat> { seq(n, p requires 0 <= p < n => p + 1) }

  function RanksOf(t: seq<Draft>, indexes: seq<nat>): seq<nat>
    requires forall k :: 0 <= k < |indexes| ==> indexes[k] < |t|
  {
    seq(|indexes|, k requires 0 <= k < |indexes| => t[indexes[k]].repoRank)
  }

  /** Within a repository of `k` drafts the ranks are a permutation of `1..k`, and `k`
      is what `build_repo_counts` counted. */
  lemma RanksArePermutation(s: seq<Draft>, t: seq<Draft>, repo: string)
    requires RanksAssigned(s, t)
    ensures |Members(s, repo)| == CountOf(Map(s, (d: Draft) => d.repoKey), repo)
    ensures forall k :: 0 <= k < |Members(s, repo)| ==> Members(s, repo)[k] < |t|
    ensures multiset(RanksOf(t, Members(s, repo))) == multiset(OneTo(|Members(s, repo)|))
  {
    hide Ranked, Members, RanksAssigned, RankedAt;
    MembersCount(s, repo);
    MembersInRange(s, t, repo);
    RankedPermutes(s, repo);
    var members, r := Members(s, repo), Ranked(s, repo);
    var rank := (x: Slot) => if x.index < |t| then t[x.index].repoRank else 0;
    var slots := Slots(s, members);
    MapPermutes(slots, r, rank);
    assert Map(slots, rank) == RanksOf(t, members);
    forall p | 0 <= p < |r| ensures Map(r, rank)[p] == p + 1 {
      RankOfPlace(s, t, repo, p);
    }
    assert Map(r, rank) == OneTo(|members|);
  }

  lemma MembersInRange(s: seq<Draft>, t: seq<Draft>, repo: string)
    requires RanksAssigned(s, t)
    ensures |t| == |s| && forall k :: 0 <= k < |Members(s, repo)| ==>
      Members(s, repo)[k] < |t| && t[Members(s, repo)[k]].repoKey == repo
  {
    MembersSpec(s, repo);
  }

  lemma RankedPermutes(s: seq<Draft>, repo: string)
    ensures forall k :: 0 <= k < |Members(s, repo)| ==> Members(s, repo)[k] < |s|
    ensures multiset(Ranked(s, repo)) == multiset(Slots(s, Members(s, repo))) && |Ranked(s, repo)| == |Members(s, repo)|
  {
    MembersSpec(s, repo);
    SortPermutes(Slots(s, Members(s, repo)), SlotLe);
  }

  lemma RankOfPlace(s: seq<Draft>, t: seq<Draft>, repo: string, p: nat)
    requires RanksAssigned(s, t) && p < |Ranked(s, repo)|
    ensures Ranked(s, repo)[p].index < |t| && t[Ranked(s, repo)[p].index].repoRank == p + 1
    ensures t[Ranked(s, repo)[p].index].repoKey == repo
  {
    hide SortBy, StrLe;
    RankedSpec(s, repo);
    var i := Ranked(s, repo)[p].index;
    assert RankedAt(s, i, t[i].repoRank);
  }

  /** A better rank never has the lower raw impact. */
  lemma RankOrdersRaw(s: seq<Draft>, t: seq<Draft>, i: nat, j: nat)
    requires RanksAssigned(s, t) && i < |t| && j < |t| && t[i].repoKey == t[j].repoKey && t[i].repoRank <= t[j].repoRank
    ensures t[i].raw >= t[j].raw
  {
    hide Ranked, StrLe;
    assert RankedAt(s, i, t[i].repoRank) && RankedAt(s, j, t[j].repoRank);
    var r := Ranked(s, s[i].repoKey);
    RankedSpec(s, s[i].repoKey);
    var p, q := t[i].repoRank - 1, t[j].repoRank - 1;
    assert p < q ==> SlotLe(r[p], r[q]);
  }

  // ---- de-biasing ----

  const I32_MAX: nat := 0x7FFF_FFFF

  /** `0.85_f64.powi(n)` over the reals. */
  function Pow85(n: nat): real { if n == 0 then 1.0 else 0.85 * Pow85(n - 1) }

  ghost predicate Logarithm(ln: real -> real) { forall x :: x >= 1.0 ==> ln(x) >= 0.0 }

  function Exponent(rank: nat): nat {
    var e := if rank == 0 then 0 else rank - 1;
    if e > I32_MAX then I32_MAX else e
  }

  function Debiased(d: Draft, ln: real -> real): real
    requires ln(d.repoCount as real) >= 0.0
  {
    d.raw * (1.0 / (1.0 + ln(d.repoCount as real))) * Pow85(Exponent(d.repoRank))
  }

  function Rescored(d: Draft, ln: real -> real): Draft
    requires ln(d.repoCount as real) >= 0.0
  {
    var debiased := Debiased(d, ln);
    d.(debiased := debiased, impact := debiased * (if d.relevant then 1.0 else 0.45) + d.relevanceScore as real)
  }

  /** `recompute_debiased_scores`, in place. Every draft has a repository count of at least 1. */
  method RecomputeDebiasedScores(drafts: array<Draft>, ln: real -> real)
    requires Logarithm(ln) && forall i :: 0 <= i < drafts.Length ==> drafts[i].repoCount >= 1
    modifies drafts
    ensures forall i :: 0 <= i < drafts.Length ==> drafts[i] == Rescored(old(drafts[i]), ln)
  {
    for n := 0 to drafts.Length
      invariant forall i :: 0 <= i < n ==> drafts[i] == Rescored(old(drafts[i]), ln)
      invariant forall i :: n <= i < drafts.Length ==> drafts[i] == old(drafts[i])
    {
      var d := drafts[n];
      var repoCount := d.repoCount as real;
      assert ln(repoCount) >= 0.0;
      var rankPenalty := Pow85(Exponent(d.repoRank));
      var multiplicityPenalty := 1.0 / (1.0 + ln(repoCount));
      var relevanceMultiplier := if d.relevant then 1.0 else 0.45;
      var debiased := d.raw * multiplicityPenalty * rankPenalty;
      var impact := debiased * relevanceMultiplier + d.relevanceScore as real;
      drafts[n] := d.(debiased := debiased, impact := impact);
    }
  }

  lemma {:induction false} Pow85Falls(a: nat, b: nat)
    requires a <= b
    ensures 0.0 < Pow85(b) <= Pow85(a)
    decreases b
  {
    if a < b {
      Pow85Falls(a, b - 1);
    } else if a > 0 {
      Pow85Falls(a - 1, b - 1);
    }
  }

  lemma ScaleOrder(a: real, b: real, m: real, p: real, q: real)
    requires a >= b >= 0.0 && 0.0 <= m && p >= q >= 0.0
    ensures a * m * p >= b * m * q >= 0.0
  {
    assert a * m >= b * m >= 0.0;
    assert a * m * p >= b * m * p >= b * m * q >= 0.0 by {
      ScaleOne(a * m, b * m, p);
      ScaleOne(p, q, b * m);
    }
  }

  lemma ScaleOne(a: real, b: real, m: real)
    requires a >= b && m >= 0.0
    ensures a * m >= b * m
  {
    assert (a - b) * m >= 0.0;
  }

  /** Inside a repository the de-biased score never rises with the rank. */
  lemma DebiasedFallsWithRank(s: seq<Draft>, t: seq<Draft>, ln: real -> real, i: nat, j: nat)
    requires RanksAssigned(s, t) && Logarithm(ln)
    requires i < |t| && j < |t| && t[i].repoKey == t[j].repoKey && t[i].repoRank <= t[j].repoRank
    requires t[i].repoCount == t[j].repoCount >= 1 && t[j].raw >= 0.0
    ensures ln(t[i].repoCount as real) >= 0.0 && Debiased(t[i], ln) >= Debiased(t[j], ln) >= 0.0
  {
    hide RankedAt;
    RankOrdersRaw(s, t, i, j);
    DebiasedOrder(t[i], t[j], ln);
  }

  lemma DebiasedOrder(d: Draft, e: Draft, ln: real -> real)
    requires Logarithm(ln) && d.repoCount == e.repoCount >= 1 && d.repoRank <= e.repoRank && d.raw >= e.raw >= 0.0
    ensures ln(d.repoCount as real) >= 0.0 && Debiased(d, ln) >= Debiased(e, ln) >= 0.0
  {
    Pow85Falls(Exponent(d.repoRank), Exponent(e.repoRank));
    var l := ln(d.repoCount as real);
    assert l >= 0.0;
    ScaleOrder(d.raw, e.raw, 1.0 / (1.0 + l), Pow85(Exponent(d.repoRank)), Pow85(Exponent(e.repoRank)));
  }

  // ---- the bound on a whole repository ----

  /** 1 + 0.85 + ... + 0.85^(k-1), scaled by 0.15, telescopes. */
  lemma {:induction false} GeometricBound(xs: seq<real>, best: real)
    requires best >= 0.0 && forall p :: 0 <= p < |xs| ==> xs[p] <= best * Pow85(p)
    ensures 0.15 * SumReal(xs) <= best * (1.0 - Pow85(|xs|))
  {
    hide Pow85, SumReal;
    SumRealEnds(xs);
    Pow85Steps(|xs|);
    if xs != [] {
      var n := |xs| - 1;
      GeometricBound(xs[..n], best);
      GeometricStep(SumReal(xs[..n]), xs[n], best, Pow85(n));
    }
  }

  lemma Pow85Steps(n: nat)
    ensures n == 0 ==> Pow85(n) == 1.0
    ensures n > 0 ==> Pow85(n) == 0.85 * Pow85(n - 1)
  {
  }

  lemma GeometricStep(sum: real, x: real, best: real, p: real)
    requires 0.15 * sum <= best * (1.0 - p) && x <= best * p
    ensures 0.15 * (sum + x) <= best * (1.0 - 0.85 * p)
  {
    var bp := best * p;
    assert best * (1.0 - p) == best - bp;
    assert best * (1.0 - 0.85 * p) == best - 0.85 * bp;
  }

  function DebiasedOf(t: seq<Draft>, indexes: seq<nat>, ln: real -> real): (r: seq<real>)
    requires forall k :: 0 <= k < |indexes| ==> indexes[k] < |t| && ln(t[indexes[k]].repoCount as real) >= 0.0
    ensures |r| == |indexes|
    ensures forall k :: 0 <= k < |indexes| ==> r[k] == Debiased(t[indexes[k]], ln)
  {
    seq(|indexes|, k requires 0 <= k < |indexes| => Debiased(t[indexes[k]], ln))
  }

  lemma PenaltyAtMostOne(raw: real, best: real, l: real, p: real)
    requires 0.0 <= raw <= best && l >= 0.0 && p >= 0.0
    ensures raw * (1.0 / (1.0 + l)) * p <= best * p
  {
    var m := 1.0 / (1.0 + l);
    assert m * (1.0 + l) == 1.0;
    assert 0.0 <= m <= 1.0 by {
      if m > 1.0 { ScaleOne(1.0 + l, 1.0, m); }
    }
    ScaleOne(1.0, m, raw);
    assert raw * m <= best;
    ScaleOne(best, raw * m, p);
  }

  /** However many candidates a repository has (ranks up to 2^31 fit the exponent),
      their de-biased scores sum to at most 20/3 of its best raw impact. */
  lemma RepoSumBounded(s: seq<Draft>, t: seq<Draft>, ln: real -> real, repo: string, best: real)
    requires RanksAssigned(s, t) && Logarithm(ln) && |Members(s, repo)| <= I32_MAX + 1
    requires best >= 0.0
    requires forall i :: 0 <= i < |t| && t[i].repoKey == repo ==> t[i].repoCount >= 1 && 0.0 <= t[i].raw <= best
    ensures forall k :: 0 <= k < |Members(s, repo)| ==>
      Members(s, repo)[k] < |t| && ln(t[Members(s, repo)[k]].repoCount as real) >= 0.0
    ensures SumReal(DebiasedOf(t, Members(s, repo), ln)) <= 20.0 / 3.0 * best
  {
    hide Ranked, Members, RanksAssigned, RankedAt, Debiased, Pow85, SumReal;
    MembersInRange(s, t, repo);
    RankedPermutes(s, repo);
    var members, r := Members(s, repo), Ranked(s, repo);
    var score := (x: Slot) =>
      if x.index < |t| && ln(t[x.index].repoCount as real) >= 0.0 then Debiased(t[x.index], ln) else 0.0;
    var slots := Slots(s, members);
    MapPermutes(slots, r, score);
    SumRealPermutes(Map(slots, score), Map(r, score));
    assert Map(slots, score) == DebiasedOf(t, members, ln);
    forall p | 0 <= p < |r| ensures Map(r, score)[p] <= best * Pow85(p) {
      RankOfPlace(s, t, repo, p);
      PlaceBound(t[r[p].index], ln, best, p);
    }
    GeometricBound(Map(r, score), best);
    Pow85Falls(|r|, |r|);
    ScaleOne(Pow85(|r|), 0.0, best);
  }

  lemma PlaceBound(d: Draft, ln: real -> real, best: real, p: nat)
    requires Logarithm(ln) && d.repoCount >= 1 && 0.0 <= d.raw <= best && d.repoRank == p + 1 && p <= I32_MAX
    ensures ln(d.repoCount as real) >= 0.0 && Debiased(d, ln) <= best * Pow85(p)
  {
    Pow85Falls(p, p);
    assert ln(d.repoCount as real) >= 0.0;
    PenaltyAtMostOne(d.raw, best, ln(d.repoCount as real), Pow85(p));
  }
}
