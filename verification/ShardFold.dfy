/** Folding sharded conformance reports into one result per extension
    (`load_sharded_conformance`). Reading the report files is left out: a missing
    report is `None`. */
module ShardFold {
  import opened Sequences
  import opened Sorting
  import opened Text
  import opened Wrappers

  datatype ShardResult = ShardResult(
    id: string, tier: nat, status: string,
    failureReason: Option<string>, failureCategory: Option<string>, durationMs: nat)

  datatype ShardReport = ShardReport(manifestCount: nat, results: seq<ShardResult>)

  datatype Aggregate = Aggregate(
    shardsExpected: nat, shardsLoaded: nat, manifestCount: nat, resultsTotal: nat,
    pass: nat, fail: nat, skip: nat, passRatePct: real)

  /** `shard_status_rank`: worse first, and no trimming. */
  function StatusRank(status: string): (r: nat)
    ensures r <= 2
  {
    if EqIgnoreCase(status, "fail") || EqIgnoreCase(status, "failed") then 0
    else if EqIgnoreCase(status, "pass") || EqIgnoreCase(status, "passed") then 1
    else 2
  }

  /** `prefer_shard_result` */
  function Prefer(existing: ShardResult, candidate: ShardResult): ShardResult {
    if StatusRank(candidate.status) < StatusRank(existing.status) then candidate
    else if StatusRank(candidate.status) > StatusRank(existing.status) then existing
    else if candidate.durationMs >= existing.durationMs then candidate
    else existing
  }

  datatype Outcome = Pass | Fail | Skip

  /** The tally's reading of a status, which does trim. */
  function Tally(status: string): Outcome {
    var s := Lower(Trim(status));
    if s == "pass" || s == "passed" then Pass else if s == "fail" || s == "failed" then Fail else Skip
  }

  // ---- the fold ----

  function Update(m: map<string, ShardResult>, r: ShardResult): map<string, ShardResult> {
    m[r.id := if r.id in m then Prefer(m[r.id], r) else r]
  }

  function Fold(results: seq<ShardResult>): map<string, ShardResult> {
    if results == [] then map[] else Update(Fold(results[..|results| - 1]), results[|results| - 1])
  }

  /** All results in the order the shards are read. */
  function Flatten(shards: seq<ShardReport>): seq<ShardResult> {
    if shards == [] then [] else Flatten(shards[..|shards| - 1]) + shards[|shards| - 1].results
  }

  /** The reports that exist. */
  function Loaded(reports: seq<Option<ShardReport>>): seq<ShardReport> {
    if reports == [] then []
    else
      var last := reports[|reports| - 1];
      Loaded(reports[..|reports| - 1]) + if last.Some? then [last.value] else []
  }

  function IdsWith(m: map<string, ShardResult>, o: Outcome): set<string> {
    set id | id in m && Tally(m[id].status) == o
  }

  /** The largest manifest count of the shards, zero if there is none. */
  ghost predicate IsMaxManifest(shards: seq<ShardReport>, n: nat) {
    && (forall i :: 0 <= i < |shards| ==> shards[i].manifestCount <= n)
    && (n == 0 || exists i :: 0 <= i < |shards| && shards[i].manifestCount == n)
  }

  /** `load_sharded_conformance`. `HashMap` iteration order is arbitrary, hence `:|`. */
  method LoadSharded(reports: seq<Option<ShardReport>>)
    returns (aggregate: Option<Aggregate>, kept: map<string, ShardResult>)
    ensures kept == Fold(Flatten(Loaded(reports)))
    ensures aggregate.None? <==> Loaded(reports) == []
    ensures aggregate.Some? ==>
      var a := aggregate.value;
      && a.shardsExpected == |reports| && a.shardsLoaded == |Loaded(reports)|
      && IsMaxManifest(Loaded(reports), a.manifestCount)
      && a.resultsTotal == |kept| == a.pass + a.fail + a.skip
      && a.pass == |IdsWith(kept, Pass)| && a.fail == |IdsWith(kept, Fail)| && a.skip == |IdsWith(kept, Skip)|
      && (a.pass + a.fail > 0 ==> a.passRatePct * (a.pass + a.fail) as real == 100.0 * a.pass as real)
      && (a.pass + a.fail == 0 ==> a.passRatePct == 0.0)
  {
    hide Tally, Update, Fold, IdsWith;
    var shards := [];
    for i := 0 to |reports|
      invariant shards == Loaded(reports[..i])
    {
      assert reports[..i + 1][..i] == reports[..i];
      if reports[i].Some? { shards := shards + [reports[i].value]; }
    }
    assert reports[..|reports|] == reports;
    var manifestCount;
    kept, manifestCount := FoldShards(shards);
    if shards == [] { return None, kept; }
    var pass, fail, skip := TallyAll(kept);
    var tested := pass + fail;
    var rate := if tested == 0 then 0.0 else pass as real / tested as real * 100.0;
    aggregate := Some(Aggregate(|reports|, |shards|, manifestCount, |kept|, pass, fail, skip, rate));
  }

  /** The nested loop over shards and their results. */
  method FoldShards(shards: seq<ShardReport>) returns (kept: map<string, ShardResult>, manifestCount: nat)
    ensures kept == Fold(Flatten(shards)) && IsMaxManifest(shards, manifestCount)
  {
    hide Update;
    manifestCount := 0;
    kept := map[];
    for i := 0 to |shards|
      invariant kept == Fold(Flatten(shards[..i]))
      invariant forall k :: 0 <= k < i ==> shards[k].manifestCount <= manifestCount
      invariant manifestCount == 0 || exists k :: 0 <= k < i && shards[k].manifestCount == manifestCount
    {
      manifestCount := if shards[i].manifestCount > manifestCount then shards[i].manifestCount else manifestCount;
      ghost var before := Flatten(shards[..i]);
      var results := shards[i].results;
      assert before + results[..0] == before;
      for j := 0 to |results|
        invariant kept == Fold(before + results[..j])
      {
        FoldStep(before, results, j);
        kept := Update(kept, results[j]);
      }
      assert shards[..i + 1][..i] == shards[..i];
      assert results[..|results|] == results;
    }
    assert shards[..|shards|] == shards;
  }

  lemma FoldStep(before: seq<ShardResult>, results: seq<ShardResult>, j: nat)
    requires j < |results|
    ensures Fold(before + results[..j + 1]) == Update(Fold(before + results[..j]), results[j])
  {
    var now := before + results[..j + 1];
    assert now[..|now| - 1] == before + results[..j];
  }

  /** The counting loop over the map's values. */
  method TallyAll(kept: map<string, ShardResult>) returns (pass: nat, fail: nat, skip: nat)
    ensures pass == |IdsWith(kept, Pass)| && fail == |IdsWith(kept, Fail)| && skip == |IdsWith(kept, Skip)|
    ensures pass + fail + skip == |kept|
  {
    hide Tally, IdsWith;
    pass, fail, skip := 0, 0, 0;
    var left := kept.Keys;
    TallyEnds(kept);
    while left != {}
      invariant left <= kept.Keys
      invariant pass == |IdsWith(kept, Pass) - left| && fail == |IdsWith(kept, Fail) - left|
      invariant skip == |IdsWith(kept, Skip) - left|
      invariant pass + fail + skip == |kept.Keys| - |left|
      decreases |left|
    {
      var id :| id in left;
      TallyStep(kept, left, id);
      match Tally(kept[id].status) {
        case Pass => pass := pass + 1;
        case Fail => fail := fail + 1;
        case Skip => skip := skip + 1;
      }
      left := left - {id};
    }
    assert |kept.Keys| == |kept|;
  }

  lemma TallyEnds(kept: map<string, ShardResult>)
    ensures forall o :: IdsWith(kept, o) - kept.Keys == {} && IdsWith(kept, o) - {} == IdsWith(kept, o)
  {
  }

  lemma TallyStep(kept: map<string, ShardResult>, left: set<string>, id: string)
    requires left <= kept.Keys && id in left
    ensures forall o :: |IdsWith(kept, o) - (left - {id})|
                     == |IdsWith(kept, o) - left| + if Tally(kept[id].status) == o then 1 else 0
  {
    hide Tally;
    forall o ensures |IdsWith(kept, o) - (left - {id})|
                  == |IdsWith(kept, o) - left| + if Tally(kept[id].status) == o then 1 else 0 {
      if Tally(kept[id].status) == o {
        assert IdsWith(kept, o) - (left - {id}) == (IdsWith(kept, o) - left) + {id};
      } else {
        assert IdsWith(kept, o) - (left - {id}) == IdsWith(kept, o) - left;
      }
    }
  }

  // ---- what is kept ----

  /** Lower rank, then longer, then later. */
  predicate Beats(results: seq<ShardResult>, k: nat, j: nat)
    requires k < |results| && j < |results|
  {
    var rk, rj := StatusRank(results[k].status), StatusRank(results[j].status);
    rk < rj || (rk == rj && (results[k].durationMs > results[j].durationMs
                             || (results[k].durationMs == results[j].durationMs && j <= k)))
  }

  /** Result `k` is the one its extension should be judged by. */
  ghost predicate Preferred(results: seq<ShardResult>, k: nat) {
    k < |results| && forall j :: 0 <= j < |results| && results[j].id == results[k].id ==> Beats(results, k, j)
  }

  ghost predicate Occurs(results: seq<ShardResult>, id: string) {
    exists k :: 0 <= k < |results| && results[k].id == id
  }

  ghost predicate KeptAt(results: seq<ShardResult>, id: string, k: nat) {
    Preferred(results, k) && results[k].id == id && id in Fold(results) && Fold(results)[id] == results[k]
  }

  /** Per id the fold keeps the lowest status rank, then the longest duration, then
      the latest occurrence, and it keeps one result for every id that occurs. */
  lemma {:induction false} FoldKeepsPreferred(results: seq<ShardResult>, id: string)
    ensures id in Fold(results) <==> Occurs(results, id)
    ensures Occurs(results, id) ==> exists k: nat :: KeptAt(results, id, k)
  {
    hide StatusRank;
    if results != [] {
      var n := |results| - 1;
      var init, last := results[..n], results[n];
      FoldKeepsPreferred(init, id);
      assert forall k :: 0 <= k < n ==> init[k] == results[k];
      if last.id == id {
        assert results[n].id == id;
        if Occurs(init, id) {
          var k: nat :| KeptAt(init, id, k);
          var winner := if StatusRank(last.status) < StatusRank(init[k].status)
            || (StatusRank(last.status) == StatusRank(init[k].status) && last.durationMs >= init[k].durationMs)
            then n else k;
          WinnerPreferred(results, k, winner);
          assert KeptAt(results, id, winner);
        } else {
          assert forall k :: 0 <= k < n ==> results[k].id != id by {
            forall k | 0 <= k < n ensures results[k].id != id { assert init[k].id != id; }
          }
          assert KeptAt(results, id, n);
        }
      } else if Occurs(init, id) {
        var k: nat :| KeptAt(init, id, k);
        KeepsPreferred(results, k);
        assert KeptAt(results, id, k);
      }
    }
  }

  lemma KeepsPreferred(results: seq<ShardResult>, k: nat)
    requires k < |results| - 1 && Preferred(results[..|results| - 1], k)
    requires results[|results| - 1].id == results[k].id ==> Beats(results, k, |results| - 1)
    ensures Preferred(results, k)
  {
    hide StatusRank;
    var init := results[..|results| - 1];
    forall j | 0 <= j < |results| && results[j].id == results[k].id ensures Beats(results, k, j) {
      if j < |init| { assert init[j].id == init[k].id; assert Beats(init, k, j); }
    }
  }

  lemma WinnerPreferred(results: seq<ShardResult>, k: nat, winner: nat)
    requires k < |results| - 1 && Preferred(results[..|results| - 1], k)
    requires winner == k || winner == |results| - 1
    requires results[|results| - 1].id == results[k].id
    requires Beats(results, winner, |results| - 1) && Beats(results, winner, k)
    ensures Preferred(results, winner)
  {
    hide StatusRank;
    var init := results[..|results| - 1];
    forall j | 0 <= j < |results| && results[j].id == results[winner].id ensures Beats(results, winner, j) {
      if j < |init| { assert init[j].id == init[k].id; assert Beats(init, k, j); }
    }
  }

  /** The kept rank and duration do not depend on the order in which shards, or
      results inside them, arrive. */
  lemma KeptKeyIgnoresOrder(a: seq<ShardResult>, b: seq<ShardResult>, id: string)
    requires multiset(a) == multiset(b)
    ensures id in Fold(a) <==> id in Fold(b)
    ensures id in Fold(a) ==>
      && StatusRank(Fold(a)[id].status) == StatusRank(Fold(b)[id].status)
      && Fold(a)[id].durationMs == Fold(b)[id].durationMs
  {
    hide StatusRank, Fold;
    FoldKeepsPreferred(a, id);
    FoldKeepsPreferred(b, id);
    SameElements(a, b);
    if i: nat :| i < |a| && a[i].id == id { assert a[i] in b; }
    if i: nat :| i < |b| && b[i].id == id { assert b[i] in a; }
    if Occurs(a, id) {
      var k: nat :| KeptAt(a, id, k);
      var m: nat :| KeptAt(b, id, m);
      BestBeats(a, k, b[m]);
      BestBeats(b, m, a[k]);
    }
  }

  lemma BestBeats(results: seq<ShardResult>, k: nat, other: ShardResult)
    requires Preferred(results, k) && other in results && other.id == results[k].id
    ensures StatusRank(results[k].status) < StatusRank(other.status)
         || (StatusRank(results[k].status) == StatusRank(other.status) && results[k].durationMs >= other.durationMs)
  {
    hide StatusRank;
    var j :| 0 <= j < |results| && results[j] == other;
    assert Beats(results, k, j);
  }

  lemma {:induction false} FlattenAppend(a: seq<ShardReport>, b: seq<ShardReport>)
    ensures Flatten(a + b) == Flatten(a) + Flatten(b)
    decreases |b|
  {
    if b == [] {
      assert a + b == a;
    } else {
      var init, last := b[..|b| - 1], b[|b| - 1].results;
      FlattenAppend(a, init);
      assert (a + b)[..|a + b| - 1] == a + init;
      assert Flatten(a) + Flatten(init) + last == Flatten(a) + (Flatten(init) + last);
    }
  }

  lemma {:induction false} FlattenPermutes(a: seq<ShardReport>, b: seq<ShardReport>)
    requires multiset(a) == multiset(b)
    ensures multiset(Flatten(a)) == multiset(Flatten(b))
    decreases |a|
  {
    hide Flatten;
    SameSize(a, b);
    if a != [] {
      var i := FindHead(a, b);
      var rest := b[..i] + b[i + 1..];
      FlattenPermutes(a[1..], rest);
      FlattenRemove(a, 0);
      assert a[..0] + a[1..] == a[1..];
      FlattenRemove(b, i);
    }
  }

  lemma FlattenRemove(b: seq<ShardReport>, i: nat)
    requires i < |b|
    ensures multiset(Flatten(b)) == multiset(Flatten(b[..i] + b[i + 1..])) + multiset(b[i].results)
  {
    hide Flatten;
    var before, after := b[..i], b[i + 1..];
    FlattenOne(b[i]);
    FlattenAppend(before, after);
    FlattenAppend([b[i]], after);
    FlattenAppend(before, [b[i]] + after);
    assert b == before + ([b[i]] + after);
    Rearranged(Flatten(before), b[i].results, Flatten(after));
  }

  lemma Rearranged<T>(x: seq<T>, y: seq<T>, z: seq<T>)
    ensures multiset(x + (y + z)) == multiset(x + z) + multiset(y)
  {
  }

  lemma FlattenOne(shard: ShardReport)
    ensures Flatten([shard]) == shard.results
  {
    assert [shard][..0] == [];
  }

  /** Reading the shards in another order changes neither the ids nor the kept rank and duration. */
  lemma ShardOrderIrrelevant(a: seq<ShardReport>, b: seq<ShardReport>, id: string)
    requires multiset(a) == multiset(b)
    ensures id in Fold(Flatten(a)) <==> id in Fold(Flatten(b))
    ensures id in Fold(Flatten(a)) ==>
      && StatusRank(Fold(Flatten(a))[id].status) == StatusRank(Fold(Flatten(b))[id].status)
      && Fold(Flatten(a))[id].durationMs == Fold(Flatten(b))[id].durationMs
  {
    FlattenPermutes(a, b);
    KeptKeyIgnoresOrder(Flatten(a), Flatten(b), id);
  }

  // ---- when a failure is counted ----

  ghost predicate Reports(results: seq<ShardResult>, id: string, rank: nat) {
    exists k :: 0 <= k < |results| && results[k].id == id && StatusRank(results[k].status) == rank
  }

  lemma {:induction false} LowerEnds(s: string)
    requires s != [] && LowerChar(s[0]) in {'f', 'p'} && LowerChar(s[|s| - 1]) in {'l', 'd', 's'}
    ensures Trim(s) == s
  {
    assert !IsWhitespace(s[0]) && !IsWhitespace(s[|s| - 1]);
  }

  /** On a status without surrounding white space the two readings agree; with it, the
      ranking sees neither a pass nor a failure. */
  lemma RankAgainstTally(status: string)
    ensures StatusRank(status) == 0 <==> Tally(status) == Fail && Trim(status) == status
    ensures StatusRank(status) == 1 <==> Tally(status) == Pass && Trim(status) == status
  {
    var l := Lower(status);
    assert Lower("fail") == "fail" && Lower("failed") == "failed";
    assert Lower("pass") == "pass" && Lower("passed") == "passed";
    if l == "fail" || l == "failed" || l == "pass" || l == "passed" {
      assert LowerChar(status[0]) == l[0] && LowerChar(status[|status| - 1]) == l[|l| - 1];
      LowerEnds(status);
    }
  }

  /** Exactly when an id counts as failed: some result says so without surrounding
      white space, or no result is ranked at all and the longest, latest one trims to
      a failure. */
  lemma CountedFailedIff(results: seq<ShardResult>, k: nat)
    requires Preferred(results, k)
    ensures var id := results[k].id;
      id in Fold(results)
      && (Tally(Fold(results)[id].status) == Fail <==>
            Reports(results, id, 0) || (!Reports(results, id, 1) && Tally(results[k].status) == Fail))
  {
    hide StatusRank, Tally, Fold;
    var id := results[k].id;
    assert Occurs(results, id);
    FoldKeepsPreferred(results, id);
    var m: nat :| KeptAt(results, id, m);
    assert Beats(results, k, m) && Beats(results, m, k);
    RankAgainstTally(results[k].status);
    if Reports(results, id, 0) {
      var j :| 0 <= j < |results| && results[j].id == id && StatusRank(results[j].status) == 0;
      assert Beats(results, k, j);
    } else if Reports(results, id, 1) {
      var j :| 0 <= j < |results| && results[j].id == id && StatusRank(results[j].status) == 1;
      assert Beats(results, k, j);
      RankBound(results[k].status);
    }
  }

  lemma RankBound(status: string)
    ensures StatusRank(status) <= 2
  {
  }

  /** With trimmed statuses, one failing shard fails the extension, and nothing else does. */
  lemma AnyFailureCounts(results: seq<ShardResult>, id: string)
    requires id in Fold(results)
    requires forall k :: 0 <= k < |results| && results[k].id == id ==> Trim(results[k].status) == results[k].status
    ensures Tally(Fold(results)[id].status) == Fail
      <==> exists k :: 0 <= k < |results| && results[k].id == id && Tally(results[k].status) == Fail
  {
    hide StatusRank, Tally, Fold, Trim;
    FoldKeepsPreferred(results, id);
    var m: nat :| KeptAt(results, id, m);
    CountedFailedIff(results, m);
    if k: nat :| k < |results| && results[k].id == id && Tally(results[k].status) == Fail {
      RankAgainstTally(results[k].status);
      assert Reports(results, id, 0);
    }
  }

  /** White space hides a failure: `" fail"` is a failure to the tally, but the ranking
      lets a pass from another shard replace it. */
  lemma PaddedFailureIsLost(id: string, d: nat)
    ensures Tally(" fail") == Fail
    ensures var results := [ShardResult(id, 0, " fail", None, None, d), ShardResult(id, 0, "pass", None, None, 0)];
      id in Fold(results) && Tally(Fold(results)[id].status) == Pass
  {
    assert TrimStart(" fail") == "fail" by { assert " fail"[1..] == "fail"; }
    assert Lower("fail") == "fail" && Lower("failed") == "failed";
    assert Lower("pass") == "pass" && Lower("passed") == "passed";
    assert Trim(" fail") == "fail" && Trim("pass") == "pass";
    assert StatusRank("pass") == 1;
    assert StatusRank(" fail") == 2 by { assert Lower(" fail")[0] == ' '; }
    var results := [ShardResult(id, 0, " fail", None, None, d), ShardResult(id, 0, "pass", None, None, 0)];
    assert results[..1] == [results[0]] && results[..1][..0] == [];
    assert Fold(results[..1]) == map[id := results[0]];
  }
}
