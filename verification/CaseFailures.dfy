/** Which failure a parallel run of `execute_cases` returns. The sequential loop stops at
    the lowest failing index; the parallel branch keeps the failure that reaches the
    channel first. Cases are claimed in index order, so a failure can overtake an
    earlier one only while another worker holds it. */
module CaseFailures {
  import opened CaseExecutor
  import opened Sequences
  import opened WorkerPool
  import opened Wrappers

  /** The failing cases below `i`. */
  ghost function FailuresBelow(c: Config, i: nat): set<nat>
    requires i <= |c.selected|
  {
    set k | 0 <= k < i && RunCase(c, k).Err?
  }

  /** One of the first `jobs` failing cases. */
  ghost predicate Leading(c: Config, i: nat) {
    i < |c.selected| && RunCase(c, i).Err? && |FailuresBelow(c, i)| < c.jobs
  }

  ghost predicate Completed(c: Config, schedule: seq<Label>) {
    Legal(c, schedule) && After(c, schedule).main.Closed?
  }

  // ---- how far a result can overtake ----

  /** The indexes that `sent[q]` overtook. */
  ghost function Overtaken(sent: seq<nat>, q: nat): set<nat>
    requires q < |sent|
  {
    set i | 0 <= i < sent[q] && i !in sent[..q]
  }

  ghost predicate NearOrder(c: Config, sent: seq<nat>) {
    forall q :: 0 <= q < |sent| ==> |Overtaken(sent, q)| < c.jobs
  }

  /** What is sent next overtakes only what other workers hold. */
  lemma SendOvertakes(c: Config, s: State, w: nat)
    requires Inv(c, s) && w < |s.workers| && s.workers[w].Holding?
    ensures |Overtaken(s.sent + [s.workers[w].index], |s.sent|)| < c.jobs
  {
    var i := s.workers[w].index;
    var sent := s.sent + [i];
    var held, overtaken := HeldItems(s.workers), Overtaken(sent, |s.sent|);
    assert sent[..|s.sent|] == s.sent;
    HeldAtMost(s.workers);
    forall k | k in overtaken ensures k in held {
      assert Held(s.workers, k);
      var v :| 0 <= v < |s.workers| && s.workers[v] == Holding(k);
      assert s.workers[v].index in held;
    }
    assert s.workers[w].index in held && i !in overtaken;
    SubsetSize(overtaken, held - {i});
  }

  lemma NearOrderAppend(c: Config, sent: seq<nat>, i: nat)
    requires NearOrder(c, sent) && |Overtaken(sent + [i], |sent|)| < c.jobs
    ensures NearOrder(c, sent + [i])
  {
    var more := sent + [i];
    forall q | 0 <= q < |more| ensures |Overtaken(more, q)| < c.jobs {
      if q < |sent| {
        assert more[..q] == sent[..q];
        assert Overtaken(more, q) == Overtaken(sent, q);
      }
    }
  }

  /** In every schedule a result overtakes fewer than `jobs` earlier indexes. */
  lemma {:induction false} EveryScheduleNearOrder(c: Config, schedule: seq<Label>)
    requires ValidConfig(c) && Legal(c, schedule)
    ensures NearOrder(c, After(c, schedule).sent)
    decreases |schedule|
  {
    if schedule != [] {
      var before, l := schedule[..|schedule| - 1], schedule[|schedule| - 1];
      EveryScheduleNearOrder(c, before);
      EveryScheduleKeepsInv(c, before);
      hide Inv;
      SentGrows(c, After(c, before), l);
      if l.Send? {
        SendOvertakes(c, After(c, before), l.worker);
        NearOrderAppend(c, After(c, before).sent, After(c, before).workers[l.worker].index);
      }
    }
  }

  lemma SentGrows(c: Config, s: State, l: Label)
    requires Inv(c, s) && Enabled(c, s, l)
    ensures Step(c, s, l).sent == if l.Send? then s.sent + [s.workers[l.worker].index] else s.sent
  {
    if l.Send? { SendKeepsInv(c, s, l.worker); }
  }

  // ---- the first failure sent ----

  lemma {:induction false} FirstFailureAt(c: Config, sent: seq<nat>) returns (q: nat)
    requires InRange(c, sent) && FirstFailure(c, sent).Some?
    ensures q < |sent| && RunCase(c, sent[q]) == Err(FirstFailure(c, sent).value)
    ensures forall k :: 0 <= k < q ==> RunCase(c, sent[k]).Ok?
  {
    var before := sent[..|sent| - 1];
    if FirstFailure(c, before).Some? {
      q := FirstFailureAt(c, before);
      assert forall k :: 0 <= k <= q ==> before[k] == sent[k];
    } else {
      FirstFailureMeaning(c, before);
      assert forall k :: 0 <= k < |before| ==> before[k] == sent[k];
      q := |sent| - 1;
    }
  }

  lemma {:induction false} FirstFailureIs(c: Config, sent: seq<nat>, q: nat)
    requires InRange(c, sent) && q < |sent| && RunCase(c, sent[q]).Err?
    requires forall k :: 0 <= k < q ==> RunCase(c, sent[k]).Ok?
    ensures FirstFailure(c, sent) == Some(RunCase(c, sent[q]).error)
  {
    var before := sent[..|sent| - 1];
    if q < |before| {
      assert forall k :: 0 <= k <= q ==> before[k] == sent[k];
      FirstFailureIs(c, before, q);
    } else {
      FirstFailureMeaning(c, before);
      assert forall k :: 0 <= k < |before| ==> before[k] == sent[k];
    }
  }

  /** Only one of the first `jobs` failures can be sent first. */
  lemma FirstSentIsLeading(c: Config, schedule: seq<Label>) returns (i: nat)
    requires ValidConfig(c) && Completed(c, schedule) && Returned(After(c, schedule)).Err?
    ensures Leading(c, i) && RunCase(c, i) == Err(Returned(After(c, schedule)).error)
  {
    var s := After(c, schedule);
    ParallelRefinesSequential(c, schedule);
    EveryScheduleNearOrder(c, schedule);
    var q := FirstFailureAt(c, s.sent);
    i := s.sent[q];
    assert forall k :: k in s.sent[..q] ==> RunCase(c, k).Ok?;
    SubsetSize(FailuresBelow(c, i), Overtaken(s.sent, q));
  }

  // ---- a schedule for every leading failure ----

  lemma Extend(c: Config, schedule: seq<Label>, l: Label)
    requires Legal(c, schedule) && Enabled(c, After(c, schedule), l)
    ensures Legal(c, schedule + [l]) && After(c, schedule + [l]) == Step(c, After(c, schedule), l)
  {
    assert (schedule + [l])[..|schedule|] == schedule;
  }

  /** All workers are started and nothing has happened yet. */
  ghost predicate Started(c: Config, s: State, n: nat) {
    && s.main == Spawning(n) && s.counter == 0 && s.sent == [] && |s.workers| == c.jobs && n <= c.jobs
    && (forall w :: 0 <= w < n ==> s.workers[w].Ready?)
  }

  lemma {:induction false} SpawnAll(c: Config, n: nat) returns (schedule: seq<Label>)
    requires n <= c.jobs
    ensures Legal(c, schedule) && Started(c, After(c, schedule), n)
  {
    schedule := [];
    if n > 0 {
      schedule := SpawnAll(c, n - 1);
      Extend(c, schedule, Spawn);
      schedule := schedule + [Spawn];
    }
  }

  /** Worker 0 has seen to the successful cases below `i`; the next `t` workers each
      hold a failing one. */
  ghost predicate Holding0(c: Config, s: State, i: nat, t: nat) {
    && !s.main.Closed? && s.counter == i <= |c.selected| && |s.workers| == c.jobs && t < c.jobs
    && InRange(c, s.sent) && (forall k :: 0 <= k < |s.sent| ==> RunCase(c, s.sent[k]).Ok?)
    && s.workers[0].Ready? && forall w :: t < w < c.jobs ==> s.workers[w].Ready?
  }

  /** Worker 0 claims the next case and sends its outcome. */
  lemma ClaimAndSend(c: Config, schedule: seq<Label>, i: nat, t: nat) returns (more: seq<Label>)
    requires ValidConfig(c) && Legal(c, schedule) && Holding0(c, After(c, schedule), i, t) && i < |c.selected|
    ensures Legal(c, more)
    ensures var s, u := After(c, schedule), After(c, more);
      u.sent == s.sent + [i] && u.counter == i + 1 && u.main == s.main && u.workers == s.workers
  {
    hide RunCase, MessageFor, Legal, After;
    var s := After(c, schedule);
    Extend(c, schedule, Claim(0));
    more := schedule + [Claim(0)];
    var mid := After(c, more);
    assert mid.workers[0] == Holding(i);
    Extend(c, more, Send(0));
    more := more + [Send(0)];
    assert After(c, more).workers == s.workers;
  }

  lemma FailuresStep(c: Config, i: nat)
    requires i < |c.selected|
    ensures |FailuresBelow(c, i + 1)| == |FailuresBelow(c, i)| + if RunCase(c, i).Err? then 1 else 0
  {
    var one := if RunCase(c, i).Err? then {i} else {};
    assert FailuresBelow(c, i + 1) == FailuresBelow(c, i) + one;
  }

  lemma FailuresGrow(c: Config, i: nat, j: nat)
    requires i <= j <= |c.selected|
    ensures |FailuresBelow(c, i)| <= |FailuresBelow(c, j)|
  {
    SubsetSize(FailuresBelow(c, i), FailuresBelow(c, j));
  }

  /** A spare worker claims the next case and keeps it. */
  lemma ClaimAndHold(c: Config, schedule: seq<Label>, i: nat, t: nat) returns (more: seq<Label>)
    requires ValidConfig(c) && Legal(c, schedule) && Holding0(c, After(c, schedule), i, t)
    requires i < |c.selected| && t + 1 < c.jobs
    ensures Legal(c, more) && Holding0(c, After(c, more), i + 1, t + 1)
  {
    hide RunCase;
    Extend(c, schedule, Claim(t + 1));
    more := schedule + [Claim(t + 1)];
  }

  /** Up to a leading failure, every earlier failure can be held back. */
  lemma {:induction false} HoldBack(c: Config, i: nat, f: nat) returns (schedule: seq<Label>)
    requires ValidConfig(c) && i <= f && Leading(c, f)
    ensures Legal(c, schedule) && Holding0(c, After(c, schedule), i, |FailuresBelow(c, i)|)
  {
    hide Legal, After;
    FailuresGrow(c, i, f);
    if i == 0 {
      schedule := SpawnAll(c, c.jobs);
      assert FailuresBelow(c, 0) == {};
    } else {
      var before := HoldBack(c, i - 1, f);
      var t := |FailuresBelow(c, i - 1)|;
      FailuresStep(c, i - 1);
      hide FailuresBelow;
      if RunCase(c, i - 1).Ok? {
        schedule := ClaimAndSend(c, before, i - 1, t);
      } else {
        schedule := ClaimAndHold(c, before, i - 1, t);
      }
    }
  }

  /** Every legal schedule can be run to completion, and what was sent stays sent. */
  lemma {:induction false} RunOn(c: Config, schedule: seq<Label>) returns (full: seq<Label>)
    requires ValidConfig(c) && Legal(c, schedule)
    ensures Completed(c, full)
    ensures var s, t := After(c, schedule), After(c, full);
      |s.sent| <= |t.sent| && s.sent == t.sent[..|s.sent|]
    decreases Fuel(c, After(c, schedule))
  {
    var s := After(c, schedule);
    if s.main.Closed? {
      full := schedule;
    } else {
      NeverDeadlocks(c, schedule);
      var l :| Enabled(c, s, l);
      EveryScheduleKeepsInv(c, schedule);
      StepBurnsFuel(c, s, l);
      SentGrows(c, s, l);
      Extend(c, schedule, l);
      hide Inv, Enabled, Step;
      full := RunOn(c, schedule + [l]);
      var mid, t := After(c, schedule + [l]).sent, After(c, full).sent;
      assert s.sent == mid[..|s.sent|] == t[..|mid|][..|s.sent|];
    }
  }

  /** Every one of the first `jobs` failures is returned by some completed schedule. */
  lemma LeadingIsReturned(c: Config, f: nat) returns (full: seq<Label>)
    requires ValidConfig(c) && Leading(c, f)
    ensures Completed(c, full) && Returned(After(c, full)) == Err(RunCase(c, f).error)
  {
    var before := HoldBack(c, f, f);
    var schedule := ClaimAndSend(c, before, f, |FailuresBelow(c, f)|);
    full := RunOn(c, schedule);
    ParallelRefinesSequential(c, full);
    var sent, all := After(c, schedule).sent, After(c, full).sent;
    var q := |sent| - 1;
    assert sent[q] == f && all[..|sent|] == sent;
    assert forall k :: 0 <= k <= q ==> all[k] == sent[k];
    FirstFailureIs(c, all, q);
    SequentialMeaning(c, 0);
  }

  // ---- which failures can be returned ----

  /** The failures a parallel run can return are exactly those of the first `jobs` failing cases. */
  lemma ReturnableIff(c: Config, e: RunError)
    requires ValidConfig(c)
    ensures (exists schedule :: Completed(c, schedule) && Returned(After(c, schedule)) == Err(e))
      <==> exists i :: Leading(c, i) && RunCase(c, i) == Err(e)
  {
    hide FailuresBelow, Legal, After, Returned;
    if schedule :| Completed(c, schedule) && Returned(After(c, schedule)) == Err(e) {
      var i := FirstSentIsLeading(c, schedule);
      assert Leading(c, i);
    }
    if i :| Leading(c, i) && RunCase(c, i) == Err(e) {
      var schedule := LeadingIsReturned(c, i);
      assert Completed(c, schedule);
    }
  }

  /** The sequential loop returns the first failure there is. */
  lemma {:induction false} SequentialFails(c: Config, i: nat) returns (k: nat)
    requires i <= |c.selected| && SequentialFrom(c, i).Err?
    ensures i <= k < |c.selected| && RunCase(c, k) == Err(SequentialFrom(c, i).error)
    ensures forall j :: i <= j < k ==> RunCase(c, j).Ok?
    decreases |c.selected| - i
  {
    if RunCase(c, i).Err? {
      k := i;
    } else {
      k := SequentialFails(c, i + 1);
    }
  }

  ghost predicate LeadingAgree(c: Config) {
    forall i, j :: Leading(c, i) && Leading(c, j) ==> RunCase(c, i) == RunCase(c, j)
  }

  /** Exactly when the parallel branch cannot be told from the sequential one: when the
      first `jobs` failing cases fail alike. */
  lemma AgreesWithSequentialIff(c: Config)
    requires ValidConfig(c)
    ensures LeadingAgree(c)
      <==> forall schedule :: Completed(c, schedule) ==> Returned(After(c, schedule)) == Sequential(c)
  {
    hide FailuresBelow, Returned, SequentialFrom;
    if LeadingAgree(c) {
      forall schedule | Completed(c, schedule) ensures Returned(After(c, schedule)) == Sequential(c) {
        ParallelRefinesSequential(c, schedule);
        if Returned(After(c, schedule)).Err? {
          var i := FirstSentIsLeading(c, schedule);
          var k := FirstFailureLeads(c);
        }
      }
    } else {
      var i, j :| Leading(c, i) && Leading(c, j) && RunCase(c, i) != RunCase(c, j);
      var a := LeadingIsReturned(c, i);
      var b := LeadingIsReturned(c, j);
    }
  }

  lemma FirstFailureLeads(c: Config) returns (k: nat)
    requires ValidConfig(c) && Sequential(c).Err?
    ensures Leading(c, k) && RunCase(c, k) == Err(Sequential(c).error)
  {
    k := SequentialFails(c, 0);
    assert FailuresBelow(c, k) == {};
  }

  /** Two workers and two cases that fail differently: some run returns the second failure. */
  lemma SecondFailureReturned(c: Config) returns (schedule: seq<Label>)
    requires |c.selected| == 2 && c.jobs == 2
    requires RunCase(c, 0).Err? && RunCase(c, 1).Err? && RunCase(c, 0) != RunCase(c, 1)
    ensures Completed(c, schedule) && Returned(After(c, schedule)) == Err(RunCase(c, 1).error)
    ensures Sequential(c) == Err(RunCase(c, 0).error) != Returned(After(c, schedule))
  {
    assert c.jobs == EffectiveJobs(2, |c.selected|);
    assert FailuresBelow(c, 1) == {0};
    schedule := LeadingIsReturned(c, 1);
  }
}
