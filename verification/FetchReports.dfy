/** When the sorted report of `run_all` depends on how its workers were scheduled. The sort is
    stable, so rows that tie on rank and id stay in the order they were received. */
module FetchReports {
  import opened FetchQueue
  import opened Sequences
  import opened Sorting
  import opened WorkerPool

  ghost predicate FinishedRun(c: Config, schedule: seq<Label>) {
    Legal(c, schedule) && After(c, schedule).main.Finished?
  }

  ghost function Report(c: Config, schedule: seq<Label>): seq<ProbeResult>
    requires Legal(c, schedule)
  {
    SortBy(After(c, schedule).results, ReportLe)
  }

  /** A finished run has received the results in the order they were sent. */
  lemma ReceivedAsSent(c: Config, schedule: seq<Label>)
    requires ValidConfig(c) && FinishedRun(c, schedule)
    ensures var s := After(c, schedule);
      InRange(c, s.sent) && |s.sent| == |c.selected| && s.results == ResultsOf(c, s.sent)
  {
    var s := After(c, schedule);
    EveryScheduleKeepsInv(c, schedule);
    EveryCandidateProcessedOnce(c, schedule);
    SameSize(s.sent, Range(|c.selected|));
    assert |s.results + s.channel| == |s.sent|;
    assert s.results + s.channel == s.results;
  }

  // ---- one worker ----

  /** A single worker takes the candidates from the back, one after the other. */
  ghost predicate FromTheBack(c: Config, s: State) {
    && |s.workers| == 1
    && |s.sent| + |s.queue| + (if s.workers[0].Holding? then 1 else 0) == |c.selected|
    && (s.workers[0].Holding? ==> s.workers[0].index == |s.queue|)
    && forall k :: 0 <= k < |s.sent| ==> s.sent[k] == |c.selected| - 1 - k
  }

  lemma {:induction false} OneWorkerFromTheBack(c: Config, schedule: seq<Label>)
    requires ValidConfig(c) && c.workers == 1 && Legal(c, schedule)
    ensures FromTheBack(c, After(c, schedule))
    decreases |schedule|
  {
    if schedule != [] {
      var before, l := schedule[..|schedule| - 1], schedule[|schedule| - 1];
      OneWorkerFromTheBack(c, before);
      EveryScheduleKeepsInv(c, before);
      if l.Send? { SendKeepsInv(c, After(c, before), l.worker); }
      if l.Spawn? { assert After(c, before).workers[0].Unspawned?; }
    }
  }

  lemma OneWorkerOneReport(c: Config, x: seq<Label>, y: seq<Label>)
    requires ValidConfig(c) && c.workers == 1 && FinishedRun(c, x) && FinishedRun(c, y)
    ensures Report(c, x) == Report(c, y)
  {
    OneWorkerFromTheBack(c, x);
    OneWorkerFromTheBack(c, y);
    ReceivedAsSent(c, x);
    ReceivedAsSent(c, y);
    assert After(c, x).sent == After(c, y).sent;
  }

  // ---- two schedules ----

  /** Positions from `n - 1` down to `q`, without `skip`. */
  function Downward(n: nat, q: nat, skip: int): seq<nat>
    requires q <= n
    decreases n - q
  {
    if q == n then [] else Downward(n, q + 1, skip) + if q == skip then [] else [q]
  }

  lemma {:induction false} DownwardInRange(n: nat, q: nat, skip: int)
    requires q <= n
    ensures forall k :: 0 <= k < |Downward(n, q, skip)| ==> Downward(n, q, skip)[k] < n
    ensures |Downward(n, q, skip)| == n - q - if q <= skip < n then 1 else 0
    decreases n - q
  {
    if q < n { DownwardInRange(n, q + 1, skip); }
  }

  /** Skipping `j` takes it out of its place. */
  lemma {:induction false} DownwardSkips(n: nat, q: nat, j: nat)
    requires q <= j < n
    ensures Downward(n, q, -1) == Downward(n, j + 1, -1) + [j] + Downward(j, q, -1)
    ensures Downward(n, q, j) == Downward(n, j + 1, -1) + Downward(j, q, -1)
    decreases j - q
  {
    if q < j {
      DownwardSkips(n, q + 1, j);
    } else {
      DownwardAbove(n, j + 1, j);
    }
  }

  lemma {:induction false} DownwardAbove(n: nat, q: nat, j: nat)
    requires j < q <= n
    ensures Downward(n, q, j) == Downward(n, q, -1)
    decreases n - q
  {
    if q < n { DownwardAbove(n, q + 1, j); }
  }

  lemma {:induction false} DownwardHas(n: nat, q: nat, i: nat)
    requires q <= i < n
    ensures i in Downward(n, q, -1)
    decreases n - q
  {
    if q < i { DownwardHas(n, q + 1, i); }
  }

  lemma Extend(c: Config, schedule: seq<Label>, l: Label)
    requires Legal(c, schedule) && Enabled(c, After(c, schedule), l)
    ensures Legal(c, schedule + [l]) && After(c, schedule + [l]) == Step(c, After(c, schedule), l)
  {
    assert (schedule + [l])[..|schedule|] == schedule;
  }

  /** All workers are started; worker 0 has done everything from position `q` on, except
      that worker 1 holds `skip`. */
  ghost predicate Working(c: Config, s: State, q: nat, skip: int) {
    && s.main.Spawning? && |s.workers| == c.workers >= 2 && q <= |c.selected| && s.queue == c.selected[..q]
    && s.sent == Downward(|c.selected|, q, skip)
    && s.workers[0].Ready? && s.workers[1] == if q <= skip then Holding(skip) else Ready
  }

  lemma {:induction false} SpawnAll(c: Config, n: nat) returns (schedule: seq<Label>)
    requires n <= c.workers
    ensures Legal(c, schedule)
    ensures var s := After(c, schedule);
      && s.main == Spawning(n) && |s.workers| == c.workers && s.queue == c.selected && s.sent == []
      && forall w :: 0 <= w < n ==> s.workers[w].Ready?
  {
    schedule := [];
    if n > 0 {
      schedule := SpawnAll(c, n - 1);
      Extend(c, schedule, Spawn);
      schedule := schedule + [Spawn];
    }
  }

  lemma {:induction false} Work(c: Config, q: nat, skip: int) returns (schedule: seq<Label>)
    requires c.workers >= 2 && q <= |c.selected| && skip < |c.selected|
    ensures Legal(c, schedule) && Working(c, After(c, schedule), q, skip)
    decreases |c.selected| - q
  {
    var n := |c.selected|;
    if q == n {
      schedule := SpawnAll(c, c.workers);
      assert c.selected[..n] == c.selected;
    } else {
      schedule := Work(c, q + 1, skip);
      if q == skip {
        schedule := HoldNext(c, schedule, q);
      } else {
        schedule := DoNext(c, schedule, q, skip);
      }
    }
  }

  lemma HoldNext(c: Config, schedule: seq<Label>, q: nat) returns (more: seq<Label>)
    requires Legal(c, schedule) && Working(c, After(c, schedule), q + 1, q) && q < |c.selected|
    ensures Legal(c, more) && Working(c, After(c, more), q, q)
  {
    Extend(c, schedule, Pop(1));
    more := schedule + [Pop(1)];
    assert c.selected[..q + 1][..q] == c.selected[..q];
  }

  lemma DoNext(c: Config, schedule: seq<Label>, q: nat, skip: int) returns (more: seq<Label>)
    requires Legal(c, schedule) && Working(c, After(c, schedule), q + 1, skip) && q < |c.selected| && q != skip
    ensures Legal(c, more) && Working(c, After(c, more), q, skip)
  {
    Extend(c, schedule, Pop(0));
    more := schedule + [Pop(0)];
    assert After(c, more).workers[0] == Holding(q);
    assert c.selected[..q + 1][..q] == c.selected[..q];
    Extend(c, more, Send(0));
    more := more + [Send(0)];
  }

  /** Every legal schedule can be run to the end, and what was sent stays sent. */
  lemma {:induction false} RunOn(c: Config, schedule: seq<Label>) returns (full: seq<Label>)
    requires ValidConfig(c) && Legal(c, schedule)
    ensures FinishedRun(c, full)
    ensures var s, t := After(c, schedule), After(c, full);
      |s.sent| <= |t.sent| && s.sent == t.sent[..|s.sent|]
    decreases Fuel(After(c, schedule))
  {
    var s := After(c, schedule);
    if s.main.Finished? {
      full := schedule;
    } else {
      NeverDeadlocks(c, schedule);
      var l :| Enabled(c, s, l) && !l.ChannelClosed?;
      EveryScheduleKeepsInv(c, schedule);
      StepBurnsFuel(c, s, l);
      Extend(c, schedule, l);
      SentGrows(c, s, l);
      hide Inv, Enabled, Step;
      full := RunOn(c, schedule + [l]);
      var mid, t := After(c, schedule + [l]).sent, After(c, full).sent;
      assert s.sent == mid[..|s.sent|] == t[..|mid|][..|s.sent|];
    }
  }

  lemma SentGrows(c: Config, s: State, l: Label)
    requires Enabled(c, s, l)
    ensures var t := Step(c, s, l); |s.sent| <= |t.sent| && s.sent == t.sent[..|s.sent|]
  {
  }

  /** A schedule that has sent everything can be finished with exactly those results. */
  lemma FinishWith(c: Config, schedule: seq<Label>) returns (full: seq<Label>)
    requires ValidConfig(c) && Legal(c, schedule) && |After(c, schedule).sent| == |c.selected|
    ensures InRange(c, After(c, schedule).sent)
    ensures FinishedRun(c, full) && After(c, full).results == ResultsOf(c, After(c, schedule).sent)
  {
    EveryScheduleKeepsInv(c, schedule);
    full := RunOn(c, schedule);
    ReceivedAsSent(c, full);
    assert After(c, full).sent == After(c, schedule).sent;
  }

  // ---- the two reports differ ----

  /** A list that is its own rotation by one repeats its first element. */
  lemma {:induction false} Rotation<T>(x: T, s: seq<T>, k: nat)
    requires [x] + s == s + [x] && k < |s|
    ensures s[k] == x
  {
    assert ([x] + s)[k] == (s + [x])[k];
    if k > 0 {
      Rotation(x, s, k - 1);
      assert ([x] + s)[k] == s[k - 1];
    }
  }

  lemma ResultsAppend(c: Config, a: seq<nat>, b: seq<nat>)
    requires InRange(c, a) && InRange(c, b)
    ensures InRange(c, a + b) && ResultsOf(c, a + b) == ResultsOf(c, a) + ResultsOf(c, b)
  {
  }

  /** Moving a row behind a different one that ties with it changes the sorted list. */
  lemma MovedRowShows(before: seq<ProbeResult>, e: ProbeResult, between: seq<ProbeResult>, x: ProbeResult)
    requires x in between && x != e && ReportLe(x, e) && ReportLe(e, x)
    ensures SortBy(before + [e] + between, ReportLe) != SortBy(before + between + [e], ReportLe)
  {
    hide SortBy, Filter, ReportLe;
    ReportComparator();
    var a, b, tied := before + [e] + between, before + between + [e], TiedWith(e, ReportLe);
    var f, g := Filter(before, tied), Filter(between, tied);
    SortStable(a, ReportLe, e);
    SortStable(b, ReportLe, e);
    FilterAppend(before + [e], between, tied);
    FilterAppend(before, [e], tied);
    FilterAppend(before + between, [e], tied);
    FilterAppend(before, between, tied);
    FilterOne(e);
    FilterKeeps(between, tied, x);
    if f + [e] + g == f + g + [e] { NotRotated(f, e, g, x); }
  }

  lemma FilterOne(e: ProbeResult)
    ensures Filter([e], TiedWith(e, ReportLe)) == [e]
  {
    SelfTied(e);
    assert [e][1..] == [];
  }

  lemma NotRotated<T>(f: seq<T>, e: T, g: seq<T>, x: T)
    requires f + [e] + g == f + g + [e] && x in g
    ensures x == e
  {
    assert [e] + g == (f + [e] + g)[|f|..] == (f + g + [e])[|f|..] == g + [e];
    var k :| 0 <= k < |g| && g[k] == x;
    Rotation(e, g, k);
  }

  lemma SelfTied(e: ProbeResult)
    ensures ReportLe(e, e)
  {
    ReportComparator();
    assert ReportLe(e, e) || ReportLe(e, e);
  }

  /** With two workers, rows that tie and differ can be received in either order. */
  lemma TieShows(c: Config, i: nat, j: nat) returns (x: seq<Label>, y: seq<Label>)
    requires c.workers >= 2 && i < j < |c.selected|
    requires var a, b := c.process(c.selected[i]), c.process(c.selected[j]); a != b && ReportLe(a, b) && ReportLe(b, a)
    ensures FinishedRun(c, x) && FinishedRun(c, y) && Report(c, x) != Report(c, y)
  {
    var n := |c.selected|;
    var straight := Work(c, 0, -1);
    var held := Work(c, 0, j);
    Extend(c, held, Send(1));
    var late := held + [Send(1)];
    DownwardInRange(n, 0, -1);
    DownwardInRange(n, 0, j);
    hide Legal, After, Step, Enabled;
    x := FinishWith(c, straight);
    y := FinishWith(c, late);
    OrderOfRows(c, j);
    var above, below := Downward(n, j + 1, -1), Downward(j, 0, -1);
    DownwardHas(j, 0, i);
    var k :| 0 <= k < |below| && below[k] == i;
    assert ResultsOf(c, below)[k] == c.process(c.selected[i]);
    MovedRowShows(ResultsOf(c, above), c.process(c.selected[j]), ResultsOf(c, below), c.process(c.selected[i]));
  }

  /** The rows as received with nothing held back, and with `j` held back to the end. */
  lemma OrderOfRows(c: Config, j: nat)
    requires j < |c.selected|
    ensures var n := |c.selected|;
      var above, below, row := Downward(n, j + 1, -1), Downward(j, 0, -1), c.process(c.selected[j]);
      && InRange(c, above) && InRange(c, below) && InRange(c, Downward(n, 0, -1)) && InRange(c, Downward(n, 0, j) + [j])
      && ResultsOf(c, Downward(n, 0, -1)) == ResultsOf(c, above) + [row] + ResultsOf(c, below)
      && ResultsOf(c, Downward(n, 0, j) + [j]) == ResultsOf(c, above) + ResultsOf(c, below) + [row]
  {
    var n := |c.selected|;
    var above, below := Downward(n, j + 1, -1), Downward(j, 0, -1);
    DownwardSkips(n, 0, j);
    DownwardInRange(n, j + 1, -1);
    DownwardInRange(j, 0, -1);
    ResultsAppend(c, above, [j]);
    ResultsAppend(c, above + [j], below);
    ResultsAppend(c, above, below);
    ResultsAppend(c, above + below, [j]);
    assert ResultsOf(c, [j]) == [c.process(c.selected[j])];
  }

  /** Exactly when the report does not depend on the schedule: when candidates that tie give
      the same row, or there is only one worker. */
  lemma ReportFixedIff(c: Config)
    requires ValidConfig(c)
    ensures TiesAgree(c) || c.workers == 1
      <==> forall x, y :: FinishedRun(c, x) && FinishedRun(c, y) ==> Report(c, x) == Report(c, y)
  {
    if c.workers == 1 {
      forall x, y | FinishedRun(c, x) && FinishedRun(c, y) ensures Report(c, x) == Report(c, y) {
        OneWorkerOneReport(c, x, y);
      }
    } else if TiesAgree(c) {
      forall x, y | FinishedRun(c, x) && FinishedRun(c, y) ensures Report(c, x) == Report(c, y) {
        ReportIgnoresSchedule(c, x);
        ReportIgnoresSchedule(c, y);
      }
    } else {
      var a, b :| a in c.selected && b in c.selected && ReportLe(c.process(a), c.process(b))
                  && ReportLe(c.process(b), c.process(a)) && c.process(a) != c.process(b);
      var i :| 0 <= i < |c.selected| && c.selected[i] == a;
      var j :| 0 <= j < |c.selected| && c.selected[j] == b;
      hide Legal, After;
      var x, y := TieShows(c, if i < j then i else j, if i < j then j else i);
    }
  }
}
