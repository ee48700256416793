/** Weighted latency percentiles: `weighted_percentile` walks cumulative weights in
    saturating 64-bit arithmetic, `percentile_index` picks a nearest rank of a plain
    sorted list. `f64` is `real`. */
module Percentile {
  import opened Integers
  import opened Sequences
  import opened Sorting
  import opened Wrappers

  datatype Weighted = Weighted(value: real, weight: u64)

  function SaturatingSub(a: u64, b: u64): u64 { if a < b then 0 else a - b }

  function Max(a: nat, b: nat): nat { if a < b then b else a }

  function Min(a: nat, b: nat): nat { if a < b then a else b }

  predicate ByValue(a: Weighted, b: Weighted) { a.value <= b.value }

  /** The rank a percentile looks for, as the 64-bit code computes it. */
  function Target(total: u64, num: u64, den: u64): u64 {
    SaturatingAdd(SaturatingMul(total, num), SaturatingSub(den, 1)) / Max(den, 1)
  }

  /** The value of the first element whose cumulative weight reaches `rank`; the
      last value if none does. */
  function Pick(s: seq<Weighted>, rank: int): real
    requires s != []
  {
    if |s| == 1 || rank <= s[0].weight then s[0].value else Pick(s[1..], rank - s[0].weight)
  }

  /** The exact sum of the weights. */
  function Sum(s: seq<Weighted>): nat {
    if s == [] then 0 else s[0].weight + Sum(s[1..])
  }

  function Percentile(values: seq<Weighted>, num: u64, den: u64): Option<real> {
    if Sum(values) == 0 then None
    else
      SortPermutes(values, ByValue);
      Some(Pick(SortBy(values, ByValue), Max(1, Target(Min(Sum(values), U64_MAX), num, den))))
  }

  // ---- the loop ----

  lemma {:induction false} SumAppend(a: seq<Weighted>, b: seq<Weighted>)
    ensures Sum(a + b) == Sum(a) + Sum(b)
  {
    if a == [] {
      assert a + b == b;
    } else {
      SumAppend(a[1..], b);
      assert (a + b)[1..] == a[1..] + b;
    }
  }

  lemma EmptySum(s: seq<Weighted>)
    ensures s == [] ==> Sum(s) == 0
  {
  }

  lemma SumStep(s: seq<Weighted>, i: nat)
    requires i < |s|
    ensures Sum(s[..i + 1]) == Sum(s[..i]) + s[i].weight
  {
    SumAppend(s[..i], [s[i]]);
    assert s[..i + 1] == s[..i] + [s[i]];
  }

  lemma {:induction false} SumPermutes(a: seq<Weighted>, b: seq<Weighted>)
    requires multiset(a) == multiset(b)
    ensures Sum(a) == Sum(b)
    decreases |a|
  {
    SameSize(a, b);
    if a != [] {
      var i := FindHead(a, b);
      SumPermutes(a[1..], b[..i] + b[i + 1..]);
      SumAppend(b[..i], b[i + 1..]);
      SumAppend(b[..i], [b[i]] + b[i + 1..]);
      assert b == b[..i] + ([b[i]] + b[i + 1..]);
    }
  }

  /** Where the walk over cumulative weights stops is where `Pick` stops. */
  lemma {:induction false} PickSkips(s: seq<Weighted>, i: nat, rank: int)
    requires i < |s| && Sum(s[..i]) < rank
    ensures Pick(s, rank) == Pick(s[i..], rank - Sum(s[..i]))
    ensures rank <= Sum(s[..i]) + s[i].weight || i == |s| - 1 ==> Pick(s, rank) == s[i].value
    decreases i
  {
    if i == 0 {
      assert s[0..] == s;
    } else {
      assert s[..i] == [s[0]] + s[1..][..i - 1];
      SumAppend([s[0]], s[1..][..i - 1]);
      assert Sum([s[0]]) == s[0].weight;
      PickSkips(s[1..], i - 1, rank - s[0].weight);
      assert s[1..][i - 1..] == s[i..];
    }
  }

  /** `weighted_percentile` */
  method WeightedPercentile(values: seq<Weighted>, num: u64, den: u64) returns (r: Option<real>)
    ensures r == Percentile(values, num, den)
  {
    hide Target, SortBy, Pick, Sum;
    EmptySum(values);
    if values == [] { return None; }
    var sorted := SortBy(values, ByValue);
    SortPermutes(values, ByValue);
    SumPermutes(values, sorted);
    assert sorted[..0] == [];
    EmptySum(sorted[..0]);
    var total: u64 := 0;
    for i := 0 to |sorted|
      invariant total == Min(Sum(sorted[..i]), U64_MAX)
    {
      SumStep(sorted, i);
      total := SaturatingAdd(total, sorted[i].weight);
    }
    assert sorted[..|sorted|] == sorted;
    if total == 0 { return None; }
    var target := Target(total, num, den);
    var cumulative: u64 := 0;
    for i := 0 to |sorted|
      invariant cumulative == Min(Sum(sorted[..i]), U64_MAX)
      invariant cumulative < Max(target, 1)
    {
      SumStep(sorted, i);
      PickSkips(sorted, i, Max(target, 1));
      cumulative := SaturatingAdd(cumulative, sorted[i].weight);
      if cumulative >= Max(target, 1) { return Some(sorted[i].value); }
    }
    var last := |sorted| - 1;
    SumStep(sorted, last);
    PickSkips(sorted, last, Max(target, 1));
    return Some(sorted[last].value);
  }

  // ---- what the answer means ----

  /** Total weight of the entries at or below `v`. */
  function Mass(s: seq<Weighted>, v: real): nat {
    if s == [] then 0 else (if s[0].value <= v then s[0].weight else 0) + Mass(s[1..], v)
  }

  /** `v` is the least listed value with at least `rank` weight at or below it, or
      the greatest value if no value has that much. Nothing here mentions order. */
  ghost predicate IsQuantile(s: seq<Weighted>, rank: int, v: real) {
    && (exists i :: 0 <= i < |s| && s[i].value == v)
    && (Mass(s, v) >= rank || forall i :: 0 <= i < |s| ==> s[i].value <= v)
    && forall i :: 0 <= i < |s| && s[i].value < v ==> Mass(s, s[i].value) < rank
  }

  lemma {:induction false} MassAbove(s: seq<Weighted>, v: real)
    requires forall i :: 0 <= i < |s| ==> v < s[i].value
    ensures Mass(s, v) == 0
  {
    if s != [] { MassAbove(s[1..], v); }
  }

  lemma {:induction false} MassAppend(a: seq<Weighted>, b: seq<Weighted>, v: real)
    ensures Mass(a + b, v) == Mass(a, v) + Mass(b, v)
  {
    if a == [] {
      assert a + b == b;
    } else {
      MassAppend(a[1..], b, v);
      assert (a + b)[1..] == a[1..] + b;
    }
  }

  lemma {:induction false} MassPermutes(a: seq<Weighted>, b: seq<Weighted>, v: real)
    requires multiset(a) == multiset(b)
    ensures Mass(a, v) == Mass(b, v)
    decreases |a|
  {
    SameSize(a, b);
    if a != [] {
      var i := FindHead(a, b);
      MassPermutes(a[1..], b[..i] + b[i + 1..], v);
      MassAppend(b[..i], b[i + 1..], v);
      MassAppend(b[..i], [b[i]] + b[i + 1..], v);
      assert b == b[..i] + ([b[i]] + b[i + 1..]);
    }
  }

  ghost predicate Ascending(s: seq<Weighted>) { forall i, j :: 0 <= i < j < |s| ==> s[i].value <= s[j].value }

  lemma PickIsQuantile(s: seq<Weighted>, rank: int)
    requires s != [] && Sorted(s, ByValue) && rank >= 1
    ensures IsQuantile(s, rank, Pick(s, rank))
  {
    hide IsQuantile, Pick;
    forall i, j | 0 <= i < j < |s| ensures s[i].value <= s[j].value { assert ByValue(s[i], s[j]); }
    PickOfAscending(s, rank);
  }

  lemma {:induction false} PickOfAscending(s: seq<Weighted>, rank: int)
    requires s != [] && Ascending(s) && rank >= 1
    ensures IsQuantile(s, rank, Pick(s, rank))
  {
    if |s| == 1 || rank <= s[0].weight {
      assert s[0].value == Pick(s, rank);
    } else {
      PickOfAscending(s[1..], rank - s[0].weight);
      hide Pick;
      QuantileBeyond(s, rank, Pick(s[1..], rank - s[0].weight));
      PickBeyond(s, rank);
    }
  }

  lemma PickBeyond(s: seq<Weighted>, rank: int)
    requires |s| > 1 && rank > s[0].weight
    ensures Pick(s, rank) == Pick(s[1..], rank - s[0].weight)
  {
  }

  /** A quantile of the rest, for the rank left over, is one of the whole. */
  lemma QuantileBeyond(s: seq<Weighted>, rank: int, v: real)
    requires |s| > 1 && Ascending(s) && rank > s[0].weight && IsQuantile(s[1..], rank - s[0].weight, v)
    ensures IsQuantile(s, rank, v)
  {
    var rest, left := s[1..], rank - s[0].weight;
    var k :| 0 <= k < |rest| && rest[k].value == v;
    assert s[k + 1].value == v;
    forall i | 0 <= i < |s| && s[i].value < v ensures Mass(s, s[i].value) < rank {
      MassBelow(s, rank, v, i);
    }
  }

  lemma MassBelow(s: seq<Weighted>, rank: int, v: real, i: nat)
    requires |s| > 1 && Ascending(s) && rank > s[0].weight && IsQuantile(s[1..], rank - s[0].weight, v)
    requires i < |s| && s[i].value < v
    ensures Mass(s, s[i].value) < rank
  {
    var rest, u := s[1..], s[i].value;
    if i > 0 { assert rest[i - 1].value == u; }
    if exists j :: 0 <= j < |rest| && rest[j].value == u {
      var j :| 0 <= j < |rest| && rest[j].value == u;
    } else {
      MassAbove(rest, u);
    }
  }

  lemma QuantileUnique(s: seq<Weighted>, lo: int, hi: int, v: real, w: real)
    requires lo <= hi && IsQuantile(s, lo, v) && IsQuantile(s, hi, w)
    ensures v <= w
    ensures lo == hi ==> v == w
  {
  }

  /** The answer in terms of the multiset of entries alone: `None` exactly when there is no
      weight, else the least value whose mass reaches the target rank. */
  lemma PercentileIsQuantile(values: seq<Weighted>, num: u64, den: u64)
    ensures Percentile(values, num, den).None? <==> Sum(values) == 0
    ensures Percentile(values, num, den).Some? ==>
      IsQuantile(values, Max(1, Target(Min(Sum(values), U64_MAX), num, den)), Percentile(values, num, den).value)
  {
    if Sum(values) > 0 {
      var sorted, rank := SortBy(values, ByValue), Max(1, Target(Min(Sum(values), U64_MAX), num, den));
      SortPermutes(values, ByValue);
      SortSorts(values, ByValue);
      PickIsQuantile(sorted, rank);
      QuantilePermutes(sorted, values, rank, Pick(sorted, rank));
    }
  }

  lemma QuantilePermutes(a: seq<Weighted>, b: seq<Weighted>, rank: int, v: real)
    requires multiset(a) == multiset(b) && IsQuantile(a, rank, v)
    ensures IsQuantile(b, rank, v)
  {
    var k :| 0 <= k < |a| && a[k].value == v;
    SameElements(a, b);
    assert a[k] in b;
    MassPermutes(a, b, v);
    forall i | 0 <= i < |b|
      ensures b[i].value < v ==> Mass(b, b[i].value) < rank
      ensures Mass(a, v) < rank ==> b[i].value <= v
    {
      assert b[i] in a;
      MassPermutes(a, b, b[i].value);
    }
  }

  /** The order in which the samples were collected does not matter, even for
      entries with equal values and different weights. */
  lemma PercentileIgnoresOrder(a: seq<Weighted>, b: seq<Weighted>, num: u64, den: u64)
    requires multiset(a) == multiset(b)
    ensures Percentile(a, num, den) == Percentile(b, num, den)
  {
    SumPermutes(a, b);
    PercentileIsQuantile(a, num, den);
    PercentileIsQuantile(b, num, den);
    if Sum(a) > 0 {
      var rank := Max(1, Target(Min(Sum(a), U64_MAX), num, den));
      QuantilePermutes(a, b, rank, Percentile(a, num, den).value);
      QuantileUnique(b, rank, rank, Percentile(a, num, den).value, Percentile(b, num, den).value);
    }
  }

  lemma MulMonotone(k: nat, a: nat, b: nat)
    requires a <= b
    ensures k * a <= k * b
  {
  }

  lemma DivMonotone(a: nat, b: nat, d: nat)
    requires a <= b && d >= 1
    ensures a / d <= b / d
  {
    if a / d >= b / d + 1 { MulMonotone(d, b / d + 1, a / d); }
  }

  lemma TargetMonotone(total: u64, lo: u64, hi: u64, den: u64)
    requires lo <= hi
    ensures Target(total, lo, den) <= Target(total, hi, den)
  {
    MulMonotone(total, lo, hi);
    DivMonotone(SaturatingAdd(SaturatingMul(total, lo), SaturatingSub(den, 1)),
                SaturatingAdd(SaturatingMul(total, hi), SaturatingSub(den, 1)), Max(den, 1));
  }

  /** Percentiles are ordered and lie among the values, saturation or not. */
  lemma PercentilesOrdered(values: seq<Weighted>, lo: u64, hi: u64, den: u64)
    requires Sum(values) > 0 && lo <= hi
    ensures Percentile(values, lo, den).value <= Percentile(values, hi, den).value
    ensures exists i :: 0 <= i < |values| && values[i].value == Percentile(values, lo, den).value
  {
    PercentileIsQuantile(values, lo, den);
    PercentileIsQuantile(values, hi, den);
    var total := Min(Sum(values), U64_MAX);
    TargetMonotone(total, lo, hi, den);
    QuantileUnique(values, Max(1, Target(total, lo, den)), Max(1, Target(total, hi, den)),
                   Percentile(values, lo, den).value, Percentile(values, hi, den).value);
  }

  // ---- agreement with the plain percentile ----

  /** Each value repeated by its weight. */
  function Expand(s: seq<Weighted>): (r: seq<real>)
    ensures |r| == Sum(s)
  {
    if s == [] then [] else seq(s[0].weight, _ => s[0].value) + Expand(s[1..])
  }

  /** `percentile_index`, with `usize` 64 bits wide. */
  function PercentileIndex(len: u64, num: u64, den: u64): (r: u64)
    requires den >= 1
    ensures len > 0 ==> r < len
  {
    if len == 0 then 0
    else Min(SaturatingSub(SaturatingAdd(SaturatingMul(len, num), den - 1) / den, 1), len - 1)
  }

  /** The sorted plain list behind the weighted one. */
  function Expanded(values: seq<Weighted>): (r: seq<real>)
    ensures |r| == Sum(values)
  {
    SortPermutes(values, ByValue);
    SumPermutes(values, SortBy(values, ByValue));
    Expand(SortBy(values, ByValue))
  }

  lemma {:induction false} PickIsExpanded(s: seq<Weighted>, rank: nat)
    requires s != [] && 1 <= rank <= Sum(s)
    ensures Pick(s, rank) == Expand(s)[rank - 1]
  {
    if rank > s[0].weight {
      assert Sum(s[1..]) == Sum(s) - s[0].weight;
      PickIsExpanded(s[1..], rank - s[0].weight);
    }
  }

  lemma {:induction false} PickPastEnd(s: seq<Weighted>, rank: nat)
    requires s != [] && Sum(s) <= rank && s[|s| - 1].weight > 0
    ensures Sum(s) > 0 && Pick(s, rank) == Expand(s)[Sum(s) - 1]
  {
    if |s| > 1 {
      PickPastEnd(s[1..], rank - s[0].weight);
    } else {
      assert Sum(s[1..]) == 0;
    }
  }

  lemma CeilBound(x: nat, total: nat, den: nat)
    requires den >= 1 && x <= total * den
    ensures (x + den - 1) / den <= total
  {
    if (x + den - 1) / den >= total + 1 {
      MulMonotone(den, total + 1, (x + den - 1) / den);
    }
  }

  lemma TargetAtMostTotal(total: u64, num: u64, den: u64)
    requires den >= 1 && num <= den
    ensures Target(total, num, den) <= total
  {
    MulMonotone(total, num, den);
    CeilBound(SaturatingMul(total, num), total, den);
    DivMonotone(SaturatingAdd(SaturatingMul(total, num), den - 1), SaturatingMul(total, num) + den - 1, den);
  }

  /** The cumulative walk equals the plain percentile of the expanded list. */
  lemma WeightedIsPlainPercentile(values: seq<Weighted>, num: u64, den: u64)
    requires 0 < Sum(values) <= U64_MAX && den >= 1
    requires num <= den || forall i :: 0 <= i < |values| ==> values[i].weight > 0
    ensures Percentile(values, num, den) == Some(Expanded(values)[PercentileIndex(Sum(values), num, den)])
  {
    hide Target, SortBy, PercentileIndex, Pick, Expand, Sum;
    var sorted, total := SortBy(values, ByValue), Sum(values);
    SortPermutes(values, ByValue);
    SumPermutes(values, sorted);
    var rank := Max(1, Target(total, num, den));
    IndexIsRank(total, num, den);
    EmptySum(values);
    if num <= den { TargetAtMostTotal(total, num, den); }
    if rank <= total {
      PickIsExpanded(sorted, rank);
      assert PercentileIndex(total, num, den) == rank - 1;
    } else {
      LastIsPositive(values, sorted);
      PickPastEnd(sorted, rank);
      assert PercentileIndex(total, num, den) == total - 1;
    }
  }

  lemma LastIsPositive(values: seq<Weighted>, sorted: seq<Weighted>)
    requires multiset(values) == multiset(sorted) && values != []
    requires forall i :: 0 <= i < |values| ==> values[i].weight > 0
    ensures sorted != [] && sorted[|sorted| - 1].weight > 0
  {
    SameSize(values, sorted);
    SameElements(sorted, values);
    assert sorted[|sorted| - 1] in values;
  }

  /** The two formulas round and saturate alike. */
  lemma IndexIsRank(total: u64, num: u64, den: u64)
    requires total >= 1 && den >= 1
    ensures PercentileIndex(total, num, den) == Min(Max(1, Target(total, num, den)), total) - 1
  {
  }

  /** The nearest rank in exact arithmetic. */
  function NearestRank(total: nat, num: nat, den: nat): (r: nat)
    requires den >= 1
    ensures r >= 1
  {
    Max(1, (total * num + den - 1) / den)
  }

  lemma NearestRankBound(total: nat, num: nat, den: nat)
    requires den >= 1 && num <= den && total >= 1
    ensures NearestRank(total, num, den) <= total
  {
    MulMonotone(total, num, den);
    CeilBound(total * num, total, den);
  }

  /** The rank `weighted_percentile` looks for in a list of the given total weight. */
  function Rank(total: nat, num: u64, den: u64): nat { Max(1, Target(Min(total, U64_MAX), num, den)) }

  function CeilDiv(y: nat, den: nat): nat
    requires den >= 1
  {
    (y + den - 1) / den
  }

  /** The largest rank 64 bits can name. */
  lemma QuotientBounds(den: u64)
    requires den >= 1
    ensures 1 <= U64_MAX / den && U64_MAX / den * den <= U64_MAX < (U64_MAX / den + 1) * den
  {
  }

  lemma CeilAtMost(y: nat, den: nat, q: nat)
    requires den >= 1
    ensures CeilDiv(y, den) <= q <==> y <= q * den
  {
    var r := CeilDiv(y, den);
    assert r * den <= y + den - 1 < (r + 1) * den;
    assert (r + 1) * den == r * den + den;
    if r <= q { MulMonotone(den, r, q); } else { MulMonotone(den, q + 1, r); assert (q + 1) * den == q * den + den; }
  }

  /** Saturating the sum before dividing caps the quotient and changes nothing else. */
  lemma SaturatedCeil(y: nat, den: u64)
    requires den >= 1
    ensures Min(Min(y, U64_MAX) + den - 1, U64_MAX) / den == Min(CeilDiv(y, den), U64_MAX / den)
  {
    var q := U64_MAX / den;
    QuotientBounds(den);
    if y + den - 1 <= U64_MAX {
      DivMonotone(y + den - 1, U64_MAX, den);
    } else {
      CeilAtMost(y, den, q - 1);
      assert (q - 1) * den == q * den - den;
    }
  }

  lemma TargetIsCappedCeil(total: u64, num: u64, den: u64)
    requires den >= 1
    ensures Target(total, num, den) == Min(CeilDiv(total * num, den), U64_MAX / den)
  {
    hide CeilDiv;
    SaturatedCeil(total * num, den);
  }

  lemma NearestRankIs(total: nat, num: nat, den: nat)
    requires den >= 1
    ensures NearestRank(total, num, den) == Max(1, CeilDiv(total * num, den))
  {
  }

  /** Beyond 64 bits the quotient is at its cap. */
  lemma CeilReachesCap(y: nat, den: u64)
    requires den >= 1 && y >= U64_MAX
    ensures CeilDiv(y, den) >= U64_MAX / den
  {
    hide CeilDiv;
    var q := U64_MAX / den;
    QuotientBounds(den);
    CeilAtMost(y, den, q - 1);
    assert (q - 1) * den == q * den - den;
  }

  /** Saturating the total changes nothing below the cap. */
  lemma CeilsAgree(total: nat, num: nat, den: u64)
    requires den >= 1
    ensures Min(CeilDiv(Min(total, U64_MAX) * num, den), U64_MAX / den) == Min(CeilDiv(total * num, den), U64_MAX / den)
  {
    hide CeilDiv;
    if total > U64_MAX && num > 0 {
      MulMonotone(U64_MAX, 1, num);
      MulMonotone(num, U64_MAX, total);
      CeilReachesCap(U64_MAX * num, den);
      CeilReachesCap(total * num, den);
    }
  }

  lemma MaxOfMin(ceil: nat, q: nat)
    requires q >= 1
    ensures Max(1, Min(ceil, q)) == Min(Max(1, ceil), q)
    ensures Min(Max(1, ceil), q) == Max(1, ceil) <==> ceil <= q
  {
  }

  /** The 64-bit rank is the exact nearest rank, or the largest 64-bit quotient if that is less. */
  lemma RankIsCapped(total: nat, num: u64, den: u64)
    requires den >= 1
    ensures Rank(total, num, den) == Min(NearestRank(total, num, den), U64_MAX / den)
  {
    hide Target, CeilDiv, NearestRank, Max, Min;
    SaturatedTotal(total);
    QuotientBounds(den);
    TargetIsCappedCeil(Min(total, U64_MAX), num, den);
    CeilsAgree(total, num, den);
    NearestRankIs(total, num, den);
    MaxOfMin(CeilDiv(total * num, den), U64_MAX / den);
  }

  lemma SaturatedTotal(total: nat)
    ensures Min(total, U64_MAX) <= U64_MAX
  {
  }

  /** The cap bites exactly beyond the largest multiple of the denominator. */
  lemma RankExactIff(total: nat, num: u64, den: u64)
    requires den >= 1
    ensures Rank(total, num, den) == NearestRank(total, num, den) <==> total * num <= U64_MAX / den * den
  {
    hide Rank, CeilDiv, NearestRank, Max, Min;
    QuotientBounds(den);
    RankIsCapped(total, num, den);
    NearestRankIs(total, num, den);
    MaxOfMin(CeilDiv(total * num, den), U64_MAX / den);
    CeilAtMost(total * num, den, U64_MAX / den);
  }

  ghost predicate PicksNearest(values: seq<Weighted>, num: u64, den: u64)
    requires den >= 1 && num <= den && Sum(values) >= 1
  {
    NearestRankBound(Sum(values), num, den);
    Percentile(values, num, den) == Some(Expanded(values)[NearestRank(Sum(values), num, den) - 1])
  }

  /** Every place of the expanded list is a quantile. */
  lemma ExpandedIsQuantile(values: seq<Weighted>, rank: nat)
    requires 1 <= rank <= Sum(values)
    ensures IsQuantile(values, rank, Expanded(values)[rank - 1])
  {
    hide SortBy, Pick;
    var sorted := SortBy(values, ByValue);
    SortPermutes(values, ByValue);
    SortSorts(values, ByValue);
    SumPermutes(values, sorted);
    PickIsExpanded(sorted, rank);
    PickIsQuantile(sorted, rank);
    QuantilePermutes(sorted, values, rank, Pick(sorted, rank));
  }

  /** `n` units of weight at 1.0, in 64-bit pieces. */
  function Ones(n: nat): (s: seq<Weighted>)
    ensures s != [] && Sum(s) == n && forall i :: 0 <= i < |s| ==> s[i].value == 1.0
  {
    if n <= U64_MAX then
      var one := [Weighted(1.0, n)];
      assert one[1..] == [] && Sum(one) == n;
      one
    else
      var rest := Ones(n - U64_MAX);
      var s := [Weighted(1.0, U64_MAX)] + rest;
      assert s[1..] == rest;
      s
  }

  /** With `low` units at 0.0 below the rest at 1.0, ranks up to `low` read 0.0 and later ones 1.0. */
  lemma TwoValues(low: u64, high: nat, rank: nat)
    requires 1 <= rank <= low + high
    ensures var values := [Weighted(0.0, low)] + Ones(high);
      Sum(values) == low + high && IsQuantile(values, rank, if rank <= low then 0.0 else 1.0)
  {
    var ones := Ones(high);
    var values := [Weighted(0.0, low)] + ones;
    assert values[1..] == ones;
    assert values[0].value == 0.0 && values[1].value == 1.0;
    MassAbove(ones, 0.0);
    assert Mass(values, 0.0) == low;
    forall i | 1 <= i < |values| ensures values[i].value == 1.0 { assert values[i] == ones[i - 1]; }
  }

  /** Where the rank is wrong, some list shows it. */
  lemma WrongRankShows(total: nat, num: u64, den: u64) returns (values: seq<Weighted>)
    requires total >= 1 && den >= 1 && num <= den && Rank(total, num, den) < NearestRank(total, num, den)
    ensures Sum(values) == total && !PicksNearest(values, num, den)
  {
    hide Percentile, Expanded, IsQuantile, Ones, Target;
    var low, exact := Rank(total, num, den), NearestRank(total, num, den);
    NearestRankBound(total, num, den);
    RankIsCapped(total, num, den);
    CapIsSmall(den);
    TwoValues(low, total - low, low);
    TwoValues(low, total - low, exact);
    values := [Weighted(0.0, low)] + Ones(total - low);
    PercentileIsQuantile(values, num, den);
    ExpandedIsQuantile(values, exact);
    QuantileUnique(values, low, low, Percentile(values, num, den).value, 0.0);
    QuantileUnique(values, exact, exact, Expanded(values)[exact - 1], 1.0);
  }

  lemma CapIsSmall(den: u64)
    requires den >= 1
    ensures U64_MAX / den <= U64_MAX
  {
  }

  /** For a given total weight, however large, and percentile: the answer is the exact
      nearest rank of every sample list if and only if the product of weight and
      numerator stays within the largest multiple of the denominator below 2^64. */
  lemma ExactIffProductFits(total: nat, num: u64, den: u64)
    requires total >= 1 && den >= 1 && num <= den
    ensures total * num <= U64_MAX / den * den
      <==> forall values :: Sum(values) == total ==> PicksNearest(values, num, den)
  {
    hide Target, PicksNearest, NearestRank;
    RankExactIff(total, num, den);
    if Rank(total, num, den) == NearestRank(total, num, den) {
      forall values: seq<Weighted> | Sum(values) == total ensures PicksNearest(values, num, den) {
        ExactRankPicks(values, num, den);
      }
    } else {
      RankIsCapped(total, num, den);
      var values := WrongRankShows(total, num, den);
    }
  }

  lemma ExactRankPicks(values: seq<Weighted>, num: u64, den: u64)
    requires Sum(values) >= 1 && den >= 1 && num <= den
    requires Rank(Sum(values), num, den) == NearestRank(Sum(values), num, den)
    ensures PicksNearest(values, num, den)
  {
    hide Percentile, Expanded, IsQuantile, Target;
    var rank := NearestRank(Sum(values), num, den);
    NearestRankBound(Sum(values), num, den);
    PercentileIsQuantile(values, num, den);
    ExpandedIsQuantile(values, rank);
    QuantileUnique(values, rank, rank, Percentile(values, num, den).value, Expanded(values)[rank - 1]);
  }

  /** Saturation does lose the percentile: two thirds of the weight sit at 1.0, yet
      the 95th percentile reads 0.0, which is not the nearest rank. */
  lemma SaturationMovesThe95th()
    ensures var values := [Weighted(0.0, 0x4000_0000_0000_0000), Weighted(1.0, 0x8000_0000_0000_0000)];
      && Sum(values) == 0xC000_0000_0000_0000
      && Percentile(values, 95, 100) == Some(0.0) && !PicksNearest(values, 95, 100)
  {
    hide Percentile, Expanded, IsQuantile;
    var low := 0x4000_0000_0000_0000;
    var values := [Weighted(0.0, low), Weighted(1.0, 2 * low)];
    var exact := NearestRank(3 * low, 95, 100);
    assert Ones(2 * low) == [Weighted(1.0, 2 * low)] && values == [Weighted(0.0, low)] + Ones(2 * low);
    var rank := Rank(3 * low, 95, 100);
    assert rank <= low < exact <= 3 * low;
    TwoValues(low, 2 * low, rank);
    TwoValues(low, 2 * low, exact);
    PercentileIsQuantile(values, 95, 100);
    ExpandedIsQuantile(values, exact);
    QuantileUnique(values, rank, rank, Percentile(values, 95, 100).value, 0.0);
    QuantileUnique(values, exact, exact, Expanded(values)[exact - 1], 1.0);
  }
}
