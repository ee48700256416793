/** The finished onboarding queue is a function of the set of candidates: with
    distinct ids, the order of the pool leaves no trace in ranks, scores or places. */
module OnboardingQueue {
  import opened Onboarding
  import opened Sequences
  import opened Sorting
  import opened Text

  /** Impact, then raw impact, both descending; relevant first; then the id. */
  predicate QueueLe(a: Draft, b: Draft) {
    if a.impact != b.impact then a.impact > b.impact
    else if a.raw != b.raw then a.raw > b.raw
    else if a.relevant != b.relevant then a.relevant
    else StrLe(a.id, b.id)
  }

  lemma QueueComparator()
    ensures Comparator(QueueLe)
  {
    StrLeComparator();
    forall a: Draft, b: Draft ensures QueueLe(a, b) || QueueLe(b, a) { StrLeTotal(a.id, b.id); }
    forall a: Draft, b: Draft, c: Draft | QueueLe(a, b) && QueueLe(b, c) ensures QueueLe(a, c) { }
  }

  ghost predicate DistinctIds(s: seq<Draft>) {
    forall i, j :: 0 <= i < j < |s| ==> s[i].id != s[j].id
  }

  // ---- the ranking of a repository, without the indexes ----

  datatype Key = Key(raw: real, id: string)

  predicate KeyLe(a: Key, b: Key) { a.raw > b.raw || (a.raw == b.raw && StrLe(a.id, b.id)) }

  function KeyOf(x: Slot): Key { Key(x.raw, x.id) }

  function Strip(s: seq<Draft>, repo: string): seq<Key> { Map(Ranked(s, repo), KeyOf) }

  function OfRepo(s: seq<Draft>, repo: string): seq<Draft> {
    if s == [] then []
    else OfRepo(s[..|s| - 1], repo) + if s[|s| - 1].repoKey == repo then [s[|s| - 1]] else []
  }

  lemma {:induction false} OfRepoContents(s: seq<Draft>, repo: string, d: Draft)
    ensures multiset(OfRepo(s, repo))[d] == if d.repoKey == repo then multiset(s)[d] else 0
  {
    if s != [] {
      var n := |s| - 1;
      OfRepoContents(s[..n], repo, d);
      assert s == s[..n] + [s[n]];
    }
  }

  lemma OfRepoPermutes(a: seq<Draft>, b: seq<Draft>, repo: string)
    requires multiset(a) == multiset(b)
    ensures multiset(OfRepo(a, repo)) == multiset(OfRepo(b, repo))
  {
    forall d ensures multiset(OfRepo(a, repo))[d] == multiset(OfRepo(b, repo))[d] {
      OfRepoContents(a, repo, d);
      OfRepoContents(b, repo, d);
    }
  }

  function DraftKey(d: Draft): Key { Key(d.raw, d.id) }

  lemma {:induction false} MembersAreOfRepo(s: seq<Draft>, repo: string)
    ensures |Members(s, repo)| == |OfRepo(s, repo)|
    ensures forall k :: 0 <= k < |Members(s, repo)| ==>
      Members(s, repo)[k] < |s| && s[Members(s, repo)[k]] == OfRepo(s, repo)[k]
  {
    if s != [] { MembersAreOfRepo(s[..|s| - 1], repo); }
  }

  lemma StripContents(s: seq<Draft>, repo: string)
    ensures multiset(Strip(s, repo)) == multiset(Map(OfRepo(s, repo), DraftKey))
  {
    hide Ranked, Members, OfRepo;
    RankedPermutes(s, repo);
    MembersAreOfRepo(s, repo);
    var slots := Slots(s, Members(s, repo));
    MapPermutes(Ranked(s, repo), slots, KeyOf);
    assert Map(slots, KeyOf) == Map(OfRepo(s, repo), DraftKey);
  }

  lemma StripSorted(s: seq<Draft>, repo: string)
    ensures Sorted(Strip(s, repo), KeyLe) && TiesEqual(Strip(s, repo), KeyLe)
  {
    hide Ranked;
    RankedSpec(s, repo);
    StrLeComparator();
    forall p, q | 0 <= p < q < |Strip(s, repo)| ensures KeyLe(Strip(s, repo)[p], Strip(s, repo)[q]) {
      assert SlotLe(Ranked(s, repo)[p], Ranked(s, repo)[q]);
    }
  }

  lemma StripIgnoresOrder(a: seq<Draft>, b: seq<Draft>, repo: string)
    requires multiset(a) == multiset(b)
    ensures Strip(a, repo) == Strip(b, repo)
  {
    hide Strip, OfRepo;
    StripContents(a, repo);
    StripContents(b, repo);
    OfRepoPermutes(a, b, repo);
    MapPermutes(OfRepo(a, repo), OfRepo(b, repo), DraftKey);
    StripSorted(a, repo);
    StripSorted(b, repo);
    SortedUnique(Strip(a, repo), Strip(b, repo), KeyLe);
  }

  // ---- rank as a function of the candidate ----

  function Place(list: seq<Key>, k: Key): nat {
    if list == [] || list[0] == k then 0 else 1 + Place(list[1..], k)
  }

  lemma {:induction false} PlaceUnique(list: seq<Key>, p: nat)
    requires p < |list| && forall q, r :: 0 <= q < r < |list| ==> list[q] != list[r]
    ensures Place(list, list[p]) == p
  {
    if p > 0 { PlaceUnique(list[1..], p - 1); }
  }

  lemma StripDistinct(s: seq<Draft>, repo: string)
    requires DistinctIds(s)
    ensures forall q, r :: 0 <= q < r < |Strip(s, repo)| ==> Strip(s, repo)[q] != Strip(s, repo)[r]
  {
    hide Ranked;
    RankedSpec(s, repo);
    forall q, r | 0 <= q < r < |Strip(s, repo)| ensures Strip(s, repo)[q] != Strip(s, repo)[r] {
      var i, j := Ranked(s, repo)[q].index, Ranked(s, repo)[r].index;
      assert i != j && s[i].id != s[j].id;
    }
  }

  function WithRank(d: Draft, list: seq<Key>): Draft { d.(repoRank := Place(list, DraftKey(d)) + 1) }

  lemma RankIsPlace(s: seq<Draft>, t: seq<Draft>, i: nat)
    requires RanksAssigned(s, t) && DistinctIds(s) && i < |s|
    ensures t[i] == WithRank(s[i], Strip(s, s[i].repoKey))
  {
    hide Ranked;
    var repo := s[i].repoKey;
    RankedSpec(s, repo);
    assert RankedAt(s, i, t[i].repoRank);
    StripDistinct(s, repo);
    PlaceUnique(Strip(s, repo), t[i].repoRank - 1);
  }

  /** A candidate's repository rank depends on the candidates only, not on their order. */
  lemma RanksIgnoreOrder(a: seq<Draft>, b: seq<Draft>, ta: seq<Draft>, tb: seq<Draft>)
    requires multiset(a) == multiset(b) && DistinctIds(a) && DistinctIds(b)
    requires RanksAssigned(a, ta) && RanksAssigned(b, tb)
    ensures multiset(ta) == multiset(tb)
  {
    hide RankedAt, Strip, DistinctIds;
    var f := (d: Draft) => WithRank(d, Strip(a, d.repoKey));
    forall i | 0 <= i < |a| ensures ta[i] == f(a[i]) { RankIsPlace(a, ta, i); }
    forall i | 0 <= i < |b| ensures tb[i] == f(b[i]) {
      RankIsPlace(b, tb, i);
      StripIgnoresOrder(a, b, b[i].repoKey);
    }
    assert ta == Map(a, f) && tb == Map(b, f);
    MapPermutes(a, b, f);
  }

  // ---- the queue ----

  /** Scores recomputed and sorted; the entry at place `n` gets queue rank `n + 1`. */
  function Queue(t: seq<Draft>, ln: real -> real): seq<Draft>
    requires forall i :: 0 <= i < |t| ==> ln(t[i].repoCount as real) >= 0.0
  {
    SortBy(seq(|t|, i requires 0 <= i < |t| => Rescored(t[i], ln)), QueueLe)
  }

  lemma RescoredTies(s: seq<Draft>)
    requires DistinctIds(s)
    ensures TiesEqual(s, QueueLe)
  {
    hide StrLe;
    StrLeComparator();
    forall x, y | x in s && y in s && QueueLe(x, y) && QueueLe(y, x) ensures x == y {
      assert x.id == y.id;
      var i :| 0 <= i < |s| && s[i] == x;
      var j :| 0 <= j < |s| && s[j] == y;
    }
  }

  /** The queue does not depend on the order of the candidate pool. */
  lemma QueueIgnoresPoolOrder(a: seq<Draft>, b: seq<Draft>, ta: seq<Draft>, tb: seq<Draft>, ln: real -> real)
    requires multiset(a) == multiset(b) && DistinctIds(a) && Logarithm(ln)
    requires RanksAssigned(a, ta) && RanksAssigned(b, tb)
    requires forall i :: 0 <= i < |a| ==> a[i].repoCount >= 1
    ensures forall i :: 0 <= i < |ta| ==> ln(ta[i].repoCount as real) >= 0.0
    ensures forall i :: 0 <= i < |tb| ==> ln(tb[i].repoCount as real) >= 0.0
    ensures Queue(ta, ln) == Queue(tb, ln)
  {
    hide RankedAt, StrLe, Rescored;
    forall i | 0 <= i < |ta| ensures ln(ta[i].repoCount as real) >= 0.0 { assert ta[i].repoCount == a[i].repoCount; }
    SameElements(a, b);
    forall i | 0 <= i < |tb| ensures ln(tb[i].repoCount as real) >= 0.0 {
      assert b[i] in a;
      assert tb[i].repoCount == b[i].repoCount;
    }
    IdsPermuted(a, b);
    RanksIgnoreOrder(a, b, ta, tb);
    QueueOfPermuted(ta, tb, ln);
  }

  lemma IdsPermuted(a: seq<Draft>, b: seq<Draft>)
    requires multiset(a) == multiset(b) && DistinctIds(a)
    ensures DistinctIds(b)
  {
    var id := (d: Draft) => d.id;
    MapPermutes(a, b, id);
    assert Distinct(Map(a, id));
    PermutedDistinct(Map(a, id), Map(b, id));
    forall i, j | 0 <= i < j < |b| ensures b[i].id != b[j].id { assert Map(b, id)[i] != Map(b, id)[j]; }
  }

  lemma QueueOfPermuted(ta: seq<Draft>, tb: seq<Draft>, ln: real -> real)
    requires multiset(ta) == multiset(tb) && DistinctIds(ta)
    requires forall i :: 0 <= i < |ta| ==> ln(ta[i].repoCount as real) >= 0.0
    requires forall i :: 0 <= i < |tb| ==> ln(tb[i].repoCount as real) >= 0.0
    ensures Queue(ta, ln) == Queue(tb, ln)
  {
    hide StrLe;
    var f := (d: Draft) => if ln(d.repoCount as real) >= 0.0 then Rescored(d, ln) else d;
    MapPermutes(ta, tb, f);
    assert Map(ta, f) == seq(|ta|, i requires 0 <= i < |ta| => Rescored(ta[i], ln));
    assert Map(tb, f) == seq(|tb|, i requires 0 <= i < |tb| => Rescored(tb[i], ln));
    assert DistinctIds(Map(ta, f));
    RescoredTies(Map(ta, f));
    QueueComparator();
    SortIgnoresOrder(Map(ta, f), Map(tb, f), QueueLe);
  }
}
