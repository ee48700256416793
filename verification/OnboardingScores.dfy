/** What moves a candidate in the onboarding queue: relevance, the number of candidates its
    repository has, its place among them, and what decides between equal scores. */
module OnboardingScores {
  import opened Onboarding
  import opened OnboardingQueue
  import opened Sequences
  import opened Sorting
  import opened Text

  ghost predicate Rising(ln: real -> real) { forall x, y :: 1.0 <= x <= y ==> ln(x) <= ln(y) }

  // ---- the score of one draft ----

  /** The only draft of a repository keeps its raw impact; the penalty for a repository with
      several divides by one more than the logarithm of their number, and each further
      rank costs 15 per cent, as far as the exponent reaches. */
  lemma DebiasedLaws(d: Draft, ln: real -> real)
    requires Logarithm(ln) && d.repoCount >= 1 && d.repoRank >= 1
    ensures ln(1.0) == 0.0 && d.repoCount == 1 && d.repoRank == 1 ==> Debiased(d, ln) == d.raw
    ensures ln(d.repoCount as real) >= 0.0
    ensures d.repoRank == 1 ==> Debiased(d, ln) * (1.0 + ln(d.repoCount as real)) == d.raw
    ensures d.repoRank <= I32_MAX ==> Debiased(d.(repoRank := d.repoRank + 1), ln) == 0.85 * Debiased(d, ln)
  {
    var l := ln(d.repoCount as real);
    assert l >= 0.0;
    var e := d.(repoRank := d.repoRank + 1);
    PenaltyCancels(d.raw, 1.0 + l);
    Pow85Steps(0);
    if d.repoRank <= I32_MAX {
      assert Exponent(e.repoRank) == Exponent(d.repoRank) + 1;
      Pow85Steps(Exponent(e.repoRank));
      hide Pow85, Exponent;
      ScaledByRank(d.raw * (1.0 / (1.0 + l)), Pow85(Exponent(d.repoRank)));
    }
  }

  lemma PenaltyCancels(raw: real, divisor: real)
    requires divisor > 0.0
    ensures raw * (1.0 / divisor) * 1.0 * divisor == raw
  {
    assert 1.0 / divisor * divisor == 1.0;
    assert raw * (1.0 / divisor) * divisor == raw * (1.0 / divisor * divisor);
  }

  lemma ScaledByRank(x: real, p: real)
    ensures x * (0.85 * p) == 0.85 * (x * p)
  {
  }

  /** Relevance never hurts: without it 55 per cent of the de-biased score are lost, which
      is a loss exactly if the raw impact is positive. A relevance point is a point. */
  lemma RelevanceNeverHurts(d: Draft, ln: real -> real)
    requires Logarithm(ln) && d.repoCount >= 1
    ensures ln(d.repoCount as real) >= 0.0
    ensures var yes, no := Rescored(d.(relevant := true), ln), Rescored(d.(relevant := false), ln);
      && no.impact - d.relevanceScore as real == 0.45 * (yes.impact - d.relevanceScore as real)
      && (yes.impact >= no.impact <==> d.raw >= 0.0) && (yes.impact > no.impact <==> d.raw > 0.0)
      && yes.debiased == no.debiased == yes.impact - d.relevanceScore as real
    ensures Rescored(d.(relevanceScore := d.relevanceScore + 1), ln).impact == Rescored(d, ln).impact + 1.0
  {
    assert ln(d.repoCount as real) >= 0.0;
    SignOfDebiased(d, ln);
    hide Debiased;
    var yes, no := d.(relevant := true), d.(relevant := false);
    assert Debiased(yes, ln) == Debiased(no, ln) == Debiased(d, ln) by { SameDebiased(d, ln); }
    assert Debiased(d.(relevanceScore := d.relevanceScore + 1), ln) == Debiased(d, ln) by { SameDebiased(d, ln); }
  }

  lemma SameDebiased(d: Draft, ln: real -> real)
    requires ln(d.repoCount as real) >= 0.0
    ensures forall r, n :: Debiased(d.(relevant := r, relevanceScore := n), ln) == Debiased(d, ln)
    ensures forall r :: Debiased(d.(relevant := r), ln) == Debiased(d, ln)
    ensures forall n :: Debiased(d.(relevanceScore := n), ln) == Debiased(d, ln)
  {
  }

  lemma SignOfDebiased(d: Draft, ln: real -> real)
    requires ln(d.repoCount as real) >= 0.0
    ensures (Debiased(d, ln) >= 0.0 <==> d.raw >= 0.0) && (Debiased(d, ln) > 0.0 <==> d.raw > 0.0)
  {
    var m, p := 1.0 / (1.0 + ln(d.repoCount as real)), Pow85(Exponent(d.repoRank));
    Pow85Falls(Exponent(d.repoRank), Exponent(d.repoRank));
    SignOfProduct(d.raw, m);
    SignOfProduct(d.raw * m, p);
  }

  lemma SignOfProduct(x: real, m: real)
    requires m > 0.0
    ensures (x * m >= 0.0 <==> x >= 0.0) && (x * m > 0.0 <==> x > 0.0)
  {
  }

  /** More candidates of one repository never help any of them. */
  lemma CountNeverHelps(d: Draft, e: Draft, ln: real -> real)
    requires Logarithm(ln) && Rising(ln) && 1 <= d.repoCount && d.raw >= 0.0
    requires e == d.(repoCount := e.repoCount) && d.repoCount <= e.repoCount
    ensures ln(d.repoCount as real) >= 0.0 && ln(e.repoCount as real) >= 0.0
    ensures Debiased(e, ln) <= Debiased(d, ln) && Rescored(e, ln).impact <= Rescored(d, ln).impact
  {
    var l, k := ln(d.repoCount as real), ln(e.repoCount as real);
    assert 0.0 <= l <= k;
    var p := Pow85(Exponent(d.repoRank));
    Pow85Falls(Exponent(d.repoRank), Exponent(d.repoRank));
    LargerDivisor(1.0 + l, 1.0 + k);
    ScaleOne(1.0 / (1.0 + l), 1.0 / (1.0 + k), d.raw);
    ScaleOne(d.raw * (1.0 / (1.0 + l)), d.raw * (1.0 / (1.0 + k)), p);
    assert Debiased(e, ln) <= Debiased(d, ln);
    hide Debiased;
    ScaleOne(Debiased(d, ln), Debiased(e, ln), if d.relevant then 1.0 else 0.45);
  }

  lemma LargerDivisor(a: real, b: real)
    requires 0.0 < a <= b
    ensures 1.0 / b <= 1.0 / a
  {
    var x, y := 1.0 / a, 1.0 / b;
    assert x * a == 1.0 && y * b == 1.0;
    if y > x { assert y * b >= y * a > x * a; }
  }

  // ---- ties ----

  /** Between equal raw impacts in a repository, the smaller id has the better rank. */
  lemma RankTiesById(s: seq<Draft>, t: seq<Draft>, i: nat, j: nat)
    requires RanksAssigned(s, t) && i < |t| && j < |t| && t[i].repoKey == t[j].repoKey
    requires t[i].raw == t[j].raw && t[i].repoRank < t[j].repoRank
    ensures StrLe(t[i].id, t[j].id)
  {
    hide Ranked, StrLe;
    assert RankedAt(s, i, t[i].repoRank) && RankedAt(s, j, t[j].repoRank);
    var r := Ranked(s, s[i].repoKey);
    RankedSpec(s, s[i].repoKey);
    assert SlotLe(r[t[i].repoRank - 1], r[t[j].repoRank - 1]);
  }

  /** The queue holds every rescored draft once: the higher impact first, then the higher
      raw impact, then relevance, then the id. */
  lemma QueueInOrder(t: seq<Draft>, ln: real -> real)
    requires forall i :: 0 <= i < |t| ==> ln(t[i].repoCount as real) >= 0.0
    ensures var q := Queue(t, ln);
      && multiset(q) == multiset(seq(|t|, i requires 0 <= i < |t| => Rescored(t[i], ln)))
      && forall i, j :: 0 <= i < j < |q| ==>
           && q[i].impact >= q[j].impact
           && (q[i].impact == q[j].impact ==> q[i].raw >= q[j].raw)
           && (q[i].impact == q[j].impact && q[i].raw == q[j].raw && q[j].relevant ==> q[i].relevant)
           && (q[i].impact == q[j].impact && q[i].raw == q[j].raw && q[i].relevant == q[j].relevant ==>
               StrLe(q[i].id, q[j].id))
  {
    hide StrLe, SortBy, Rescored;
    var all := seq(|t|, i requires 0 <= i < |t| => Rescored(t[i], ln));
    QueueComparator();
    SortPermutes(all, QueueLe);
    SortSorts(all, QueueLe);
    var q := Queue(t, ln);
    forall i, j | 0 <= i < j < |q| ensures QueueLe(q[i], q[j]) { }
  }
}
