/** `run_all` of the unvendored fetch-and-probe harness: worker threads pop
    candidates from the back of a mutex-guarded vector and send one result each;
    the main thread receives exactly as many results as candidates were selected,
    sorts them by rank and id, and counts their states. */
module FetchQueue {
  import opened Sequences
  import opened Sorting
  import opened Text
  import opened WorkerPool
  import opened Wrappers

  type Source(!new)
  type Root(!new)

  datatype Item = Item(id: string, source: Source)

  datatype FetchState = Cached | Fetched | Failed | Skipped
  datatype ProbeState = Pass | Fail | Timeout | NotAttempted

  datatype Registered = Registered(commands: nat, tools: nat, flags: nat, providers: nat)
  datatype Detected = Detected(entrypoint: Option<string>, score: Option<int>, scannedFiles: nat)
  datatype Probe = Probe(status: string, error: Option<string>, registered: Registered)

  /** One row of the report, without the wall-clock duration. */
  datatype ProbeResult = ProbeResult(
    id: string,
    rank: Option<nat>,
    fetchState: FetchState,
    fetchError: Option<string>,
    entrypoint: Option<string>,
    entryScore: Option<int>,
    scannedFiles: nat,
    probeState: ProbeState,
    probeError: Option<string>,
    registered: Registered)

  /** Everything outside the program: fetching (which reports whether the copy was
      cached), detecting an entrypoint, and probing it. */
  datatype World = World(
    rankMap: map<string, nat>,
    noProbe: bool,
    fetch: Item -> Result<(bool, Root), string>,
    detect: (Item, Root) -> Detected,
    probe: (string, Root) -> Result<Probe, string>)

  function Rank(w: World, id: string): Option<nat> {
    if id in w.rankMap then Some(w.rankMap[id]) else None
  }

  // ---- process_candidate ----

  /** The state a probe reply leaves: only an exact "pass" (in any case) passes, and
      only an error mentioning a timeout is a timeout. */
  function ProbeVerdict(reply: Result<Probe, string>): (s: ProbeState)
    ensures s != NotAttempted
  {
    match reply
    case Ok(p) => if Lower(p.status) == "pass" then Pass else Fail
    case Err(e) => if Contains(e, "timeout") then Timeout else Fail
  }

  ghost function ProcessSpec(w: World, item: Item): ProbeResult {
    var blank := ProbeResult(item.id, Rank(w, item.id), Failed, None, None, None, 0, NotAttempted, None,
                       Registered(0, 0, 0, 0));
    match w.fetch(item)
    case Err(e) => blank.(fetchError := Some(e))
    case Ok((cached, root)) =>
      var d := w.detect(item, root);
      var fetched := blank.(fetchState := if cached then Cached else Fetched, scannedFiles := d.scannedFiles);
      if d.entrypoint.None? then fetched
      else
        var found := fetched.(entrypoint := d.entrypoint, entryScore := d.score);
        if w.noProbe then found
        else
          var reply := w.probe(d.entrypoint.value, root);
          match reply
          case Ok(p) => found.(probeState := ProbeVerdict(reply), registered := p.registered,
                               probeError := if ProbeVerdict(reply) == Pass then None else p.error)
          case Err(e) => found.(probeState := ProbeVerdict(reply), probeError := Some(e))
  }

  /** Sets the result's fields in the order the harness does. */
  method ProcessCandidate(w: World, item: Item) returns (out: ProbeResult)
    ensures out == ProcessSpec(w, item)
  {
    out := ProbeResult(item.id, Rank(w, item.id), Skipped, None, None, None, 0, NotAttempted, None,
                       Registered(0, 0, 0, 0));
    match w.fetch(item) {
      case Ok((cached, root)) =>
        out := out.(fetchState := if cached then Cached else Fetched);
        var detect := w.detect(item, root);
        out := out.(scannedFiles := detect.scannedFiles);
        if detect.entrypoint.Some? {
          out := out.(entrypoint := detect.entrypoint, entryScore := detect.score);
          if !w.noProbe {
            match w.probe(detect.entrypoint.value, root) {
              case Ok(probe) =>
                var status := Lower(probe.status);
                if status == "pass" {
                  out := out.(probeState := Pass);
                } else {
                  out := out.(probeState := Fail, probeError := probe.error);
                }
                out := out.(registered := probe.registered);
              case Err(err) =>
                out := out.(probeState := if Contains(err, "timeout") then Timeout else Fail);
                out := out.(probeError := Some(err));
            }
          }
        }
      case Err(err) =>
        out := out.(fetchState := Failed, fetchError := Some(err), probeState := NotAttempted);
    }
  }

  // ---- the worker queue ----

  datatype Config = Config(selected: seq<Item>, process: Item -> ProbeResult, workers: nat)

  datatype Main = Spawning(started: nat) | Receiving | Finished | Broken

  /** `sent` is history: positions in `selected` of the results sent, in channel
      order. `Broken` is the "channel closed before all results" error. */
  datatype State = State(
    queue: seq<Item>,
    workers: seq<Worker>,
    main: Main,
    channel: seq<ProbeResult>,
    results: seq<ProbeResult>,
    sent: seq<nat>)

  datatype Label = Spawn | DropSender | Pop(worker: nat) | Send(worker: nat) | Receive | ChannelClosed | Finish

  /** `run_all` refuses a zero worker count. */
  predicate ValidConfig(c: Config) {
    c.workers > 0
  }

  function Init(c: Config): State {
    State(c.selected, seq(c.workers, _ => Unspawned), Spawning(0), [], [], [])
  }

  predicate AllExited(ws: seq<Worker>) {
    forall k :: 0 <= k < |ws| ==> ws[k].Exited?
  }

  predicate Enabled(c: Config, s: State, l: Label) {
    match l
    case Spawn => s.main.Spawning? && s.main.started < c.workers && s.main.started < |s.workers|
    case DropSender => s.main.Spawning? && s.main.started >= c.workers
    case Pop(w) => w < |s.workers| && s.workers[w].Ready?
    case Send(w) => w < |s.workers| && s.workers[w].Holding? && s.workers[w].index < |c.selected|
    case Receive => s.main.Receiving? && |s.results| < |c.selected| && s.channel != []
    case ChannelClosed => s.main.Receiving? && |s.results| < |c.selected| && s.channel == [] && AllExited(s.workers)
    case Finish => s.main.Receiving? && |s.results| >= |c.selected|
  }

  function Step(c: Config, s: State, l: Label): State
    requires Enabled(c, s, l)
  {
    match l
    case Spawn =>
      s.(workers := s.workers[s.main.started := Ready], main := Spawning(s.main.started + 1))
    case DropSender => s.(main := Receiving)
    case Pop(w) =>
      if s.queue == [] then s.(workers := s.workers[w := Exited])
      else s.(queue := s.queue[..|s.queue| - 1], workers := s.workers[w := Holding(|s.queue| - 1)])
    case Send(w) =>
      if s.main.Finished? || s.main.Broken? then s.(workers := s.workers[w := Exited])
      else
        var i := s.workers[w].index;
        s.(workers := s.workers[w := Ready], channel := s.channel + [c.process(c.selected[i])], sent := s.sent + [i])
    case Receive => s.(channel := s.channel[1..], results := s.results + [s.channel[0]])
    case ChannelClosed => s.(main := Broken)
    case Finish => s.(main := Finished)
  }

  ghost predicate Legal(c: Config, schedule: seq<Label>)
    decreases |schedule|, 0
  {
    schedule == [] ||
    (var before := schedule[..|schedule| - 1];
     Legal(c, before) && Enabled(c, After(c, before), schedule[|schedule| - 1]))
  }

  ghost function After(c: Config, schedule: seq<Label>): State
    requires Legal(c, schedule)
    decreases |schedule|, 1
  {
    if schedule == [] then Init(c)
    else Step(c, After(c, schedule[..|schedule| - 1]), schedule[|schedule| - 1])
  }

  // ---- the invariant of every reachable state ----

  ghost predicate InRange(c: Config, indexes: seq<nat>) {
    forall k :: 0 <= k < |indexes| ==> indexes[k] < |c.selected|
  }

  ghost function ResultsOf(c: Config, indexes: seq<nat>): (r: seq<ProbeResult>)
    requires InRange(c, indexes)
    ensures |r| == |indexes|
  {
    seq(|indexes|, k requires 0 <= k < |indexes| => c.process(c.selected[indexes[k]]))
  }

  ghost predicate PhaseInv(c: Config, s: State) {
    && |s.workers| == c.workers
    && s.queue <= c.selected
    && (s.main.Spawning? ==>
          s.main.started <= c.workers && forall w :: s.main.started <= w < c.workers ==> s.workers[w].Unspawned?)
    && (forall w :: 0 <= w < c.workers && s.workers[w].Unspawned? ==> s.main.Spawning? && s.main.started <= w)
    && (forall w :: 0 <= w < c.workers && s.workers[w].Exited? ==> s.queue == [])
    && !s.main.Broken?
    && (s.main.Finished? ==> |s.results| == |c.selected|)
  }

  /** A position is still queued, or held by one worker, or sent once. */
  ghost predicate OwnershipInv(c: Config, s: State) {
    && Distinct(s.sent)
    && InRange(c, s.sent)
    && (forall i :: i in s.sent ==> |s.queue| <= i && !Held(s.workers, i))
    && (forall w :: 0 <= w < |s.workers| && s.workers[w].Holding? ==> |s.queue| <= s.workers[w].index < |c.selected|)
    && (forall v, w :: 0 <= v < w < |s.workers| && s.workers[v].Holding? ==> s.workers[v] != s.workers[w])
    && (forall i :: |s.queue| <= i < |c.selected| ==> i in s.sent || Held(s.workers, i))
  }

  ghost predicate ChannelInv(c: Config, s: State) {
    InRange(c, s.sent) && s.results + s.channel == ResultsOf(c, s.sent)
  }

  ghost predicate Inv(c: Config, s: State) {
    PhaseInv(c, s) && OwnershipInv(c, s) && ChannelInv(c, s)
  }

  lemma PopKeepsInv(c: Config, s: State, w: nat)
    requires Inv(c, s) && Enabled(c, s, Pop(w))
    ensures Inv(c, Step(c, s, Pop(w)))
  {
    var t := Step(c, s, Pop(w));
    assert forall v :: 0 <= v < |s.workers| && v != w ==> t.workers[v] == s.workers[v];
    forall i | |t.queue| <= i < |c.selected| ensures i in t.sent || Held(t.workers, i) {
      if i < |s.queue| {
        assert t.workers[w] == Holding(i);
      } else if i !in s.sent {
        var v :| 0 <= v < |s.workers| && s.workers[v] == Holding(i);
        assert t.workers[v] == Holding(i);
      }
    }
    forall i | i in t.sent ensures |t.queue| <= i && !Held(t.workers, i) {
      assert |s.queue| <= i && !Held(s.workers, i);
    }
  }

  lemma SendKeepsInv(c: Config, s: State, w: nat)
    requires Inv(c, s) && Enabled(c, s, Send(w))
    ensures !s.main.Finished? && !s.main.Broken?
    ensures Inv(c, Step(c, s, Send(w)))
  {
    var i := s.workers[w].index;
    assert Held(s.workers, i);
    assert i !in s.sent;
    UnsentLeavesWork(c, s, i);
    var t := Step(c, s, Send(w));
    SendKeepsOwnership(c, s, t, w);
    assert t.results + t.channel == ResultsOf(c, t.sent) by {
      assert t.results + t.channel == (s.results + s.channel) + [c.process(c.selected[i])];
    }
  }

  /** While a position is unsent, fewer results than candidates were received. */
  lemma UnsentLeavesWork(c: Config, s: State, i: nat)
    requires OwnershipInv(c, s) && ChannelInv(c, s) && i < |c.selected| && i !in s.sent
    ensures |s.results| < |c.selected|
  {
    assert |s.results| <= |s.sent|;
    DistinctBound(s.sent, |c.selected|, i);
  }

  lemma SendKeepsOwnership(c: Config, s: State, t: State, w: nat)
    requires OwnershipInv(c, s) && w < |s.workers| && s.workers[w].Holding? && s.workers[w].index !in s.sent
    requires t.workers == s.workers[w := Ready] && t.sent == s.sent + [s.workers[w].index] && t.queue == s.queue
    ensures OwnershipInv(c, t)
  {
    var i := s.workers[w].index;
    assert forall v :: 0 <= v < |s.workers| && v != w ==> t.workers[v] == s.workers[v];
    forall k | k in t.sent ensures |t.queue| <= k && !Held(t.workers, k) {
      if k != i { assert k in s.sent; }
    }
    forall k | |t.queue| <= k < |c.selected| ensures k in t.sent || Held(t.workers, k) {
      if k != i && k !in s.sent {
        var v :| 0 <= v < |s.workers| && s.workers[v] == Holding(k);
        assert t.workers[v] == Holding(k);
      } else {
        assert i in t.sent;
        assert forall x :: x in s.sent ==> x in t.sent;
      }
    }
  }

  lemma SpawnKeepsInv(c: Config, s: State)
    requires Inv(c, s) && Enabled(c, s, Spawn)
    ensures Inv(c, Step(c, s, Spawn))
  {
    var t := Step(c, s, Spawn);
    assert forall v :: 0 <= v < |s.workers| && v != s.main.started ==> t.workers[v] == s.workers[v];
    forall i ensures Held(s.workers, i) <==> Held(t.workers, i) {
      if Held(s.workers, i) {
        var v :| 0 <= v < |s.workers| && s.workers[v] == Holding(i);
        assert t.workers[v] == Holding(i);
      }
    }
  }

  /** When every worker has left, every position has been sent. */
  lemma AllSent(c: Config, s: State)
    requires ValidConfig(c) && Inv(c, s) && AllExited(s.workers)
    ensures multiset(s.sent) == multiset(Range(|c.selected|)) && |s.sent| == |c.selected|
  {
    assert s.workers[0].Exited?;
    forall i | 0 <= i < |c.selected| ensures i in s.sent {
      assert !Held(s.workers, i);
    }
    DistinctCovers(s.sent, |c.selected|);
  }

  lemma StepKeepsInv(c: Config, s: State, l: Label)
    requires ValidConfig(c) && Inv(c, s) && Enabled(c, s, l)
    ensures !l.ChannelClosed?
    ensures Inv(c, Step(c, s, l))
  {
    if l.ChannelClosed? { AllSent(c, s); }
    match l
    case Spawn => SpawnKeepsInv(c, s);
    case Pop(w) => PopKeepsInv(c, s, w);
    case Send(w) => SendKeepsInv(c, s, w);
    case Receive =>
      var t := Step(c, s, l);
      assert s.channel == [s.channel[0]] + s.channel[1..];
      assert t.results + t.channel == s.results + s.channel;
    case DropSender =>
    case Finish => assert |s.results| <= |ResultsOf(c, s.sent)|; DistinctBound(s.sent, |c.selected|, 0);
    case ChannelClosed =>
  }

  lemma {:induction false} EveryScheduleKeepsInv(c: Config, schedule: seq<Label>)
    requires ValidConfig(c) && Legal(c, schedule)
    ensures Inv(c, After(c, schedule))
    decreases |schedule|
  {
    if schedule != [] {
      EveryScheduleKeepsInv(c, schedule[..|schedule| - 1]);
      StepKeepsInv(c, After(c, schedule[..|schedule| - 1]), schedule[|schedule| - 1]);
    }
  }

  // ---- the report ----

  const USIZE_MAX: nat := 0xFFFF_FFFF_FFFF_FFFF

  function SortRank(r: ProbeResult): nat {
    match r.rank
    case Some(n) => n
    case None => USIZE_MAX
  }

  predicate ReportLe(a: ProbeResult, b: ProbeResult) {
    SortRank(a) < SortRank(b) || (SortRank(a) == SortRank(b) && StrLe(a.id, b.id))
  }

  lemma ReportComparator()
    ensures Comparator(ReportLe)
    ensures forall a, b :: ReportLe(a, b) && ReportLe(b, a) ==> SortRank(a) == SortRank(b) && a.id == b.id
  {
    StrLeComparator();
  }

  /** In no schedule does a receive fail: every run that stops has received one
      result per candidate, and they are the candidates' results in some order. */
  lemma EveryCandidateProcessedOnce(c: Config, schedule: seq<Label>)
    requires ValidConfig(c) && Legal(c, schedule)
    ensures !After(c, schedule).main.Broken?
    ensures After(c, schedule).main.Finished? ==>
              && multiset(After(c, schedule).sent) == multiset(Range(|c.selected|))
              && multiset(After(c, schedule).results) == multiset(Map(c.selected, c.process))
  {
    var s := After(c, schedule);
    EveryScheduleKeepsInv(c, schedule);
    if s.main.Finished? {
      DistinctBound(s.sent, |c.selected|, 0);
      assert |s.results + s.channel| == |s.sent|;
      assert s.results == s.results + s.channel;
      forall i | 0 <= i < |c.selected| ensures i in s.sent {
        DistinctBound(s.sent, |c.selected|, i);
      }
      DistinctCovers(s.sent, |c.selected|);
      if c.selected != [] {
        ResultsArePermuted(c, s.sent);
      }
    }
  }

  lemma ResultsArePermuted(c: Config, sent: seq<nat>)
    requires InRange(c, sent) && c.selected != [] && multiset(sent) == multiset(Range(|c.selected|))
    ensures multiset(ResultsOf(c, sent)) == multiset(Map(c.selected, c.process))
  {
    var at := (i: nat) => c.process(c.selected[if i < |c.selected| then i else 0]);
    assert ResultsOf(c, sent) == Map(sent, at);
    assert Map(c.selected, c.process) == Map(Range(|c.selected|), at);
    MapPermutes(sent, Range(|c.selected|), at);
  }

  /** Candidates that sort alike give the same row; distinct ids are enough. */
  ghost predicate TiesAgree(c: Config) {
    forall a, b :: a in c.selected && b in c.selected
                   && ReportLe(c.process(a), c.process(b)) && ReportLe(c.process(b), c.process(a))
                   ==> c.process(a) == c.process(b)
  }

  /** The sorted report is the same for every worker count and every schedule:
      it is the sorted list of the candidates' own results. */
  lemma ReportIgnoresSchedule(c: Config, schedule: seq<Label>)
    requires ValidConfig(c) && Legal(c, schedule) && After(c, schedule).main.Finished? && TiesAgree(c)
    ensures SortBy(After(c, schedule).results, ReportLe) == SortBy(Map(c.selected, c.process), ReportLe)
  {
    EveryCandidateProcessedOnce(c, schedule);
    ReportComparator();
    var rows := Map(c.selected, c.process);
    SameElements(After(c, schedule).results, rows);
    forall a, b | a in rows && b in rows && ReportLe(a, b) && ReportLe(b, a) ensures a == b {
      var i :| 0 <= i < |rows| && rows[i] == a;
      var j :| 0 <= j < |rows| && rows[j] == b;
      assert a == c.process(c.selected[i]) && b == c.process(c.selected[j]);
    }
    SortIgnoresOrder(rows, After(c, schedule).results, ReportLe);
  }

  ghost predicate DistinctIds(items: seq<Item>) {
    forall i, j :: 0 <= i < j < |items| ==> items[i].id != items[j].id
  }

  /** With the harness's own `process_candidate`, distinct ids suffice. */
  lemma DistinctIdsAgree(c: Config, w: World)
    requires DistinctIds(c.selected) && forall item :: c.process(item) == ProcessSpec(w, item)
    ensures TiesAgree(c)
  {
    ReportComparator();
    hide ReportLe, ProcessSpec;
    forall a, b | a in c.selected && b in c.selected
                  && ReportLe(c.process(a), c.process(b)) && ReportLe(c.process(b), c.process(a))
      ensures c.process(a) == c.process(b)
    {
      ProcessKeepsId(w, a);
      ProcessKeepsId(w, b);
      var i :| 0 <= i < |c.selected| && c.selected[i] == a;
      var j :| 0 <= j < |c.selected| && c.selected[j] == b;
    }
  }

  lemma ProcessKeepsId(w: World, item: Item)
    ensures ProcessSpec(w, item).id == item.id
  {
  }

  // ---- the counters ----

  datatype Counts = Counts(
    total: nat, cached: nat, fetched: nat, fetchFailed: nat, noEntrypoint: nat,
    probePass: nat, probeFail: nat, probeTimeout: nat, probeNotAttempted: nat)

  function CountsOf(rows: seq<ProbeResult>): Counts {
    Counts(|rows|,
           Count(rows, (r: ProbeResult) => r.fetchState == Cached),
           Count(rows, (r: ProbeResult) => r.fetchState == Fetched),
           Count(rows, (r: ProbeResult) => r.fetchState == Failed),
           Count(rows, (r: ProbeResult) => r.entrypoint.None?),
           Count(rows, (r: ProbeResult) => r.probeState == Pass),
           Count(rows, (r: ProbeResult) => r.probeState == Fail),
           Count(rows, (r: ProbeResult) => r.probeState == Timeout),
           Count(rows, (r: ProbeResult) => r.probeState == NotAttempted))
  }

  /** The counting loop of `run_all`. */
  method CountRows(rows: seq<ProbeResult>) returns (n: Counts)
    ensures n == CountsOf(rows)
  {
    n := Counts(|rows|, 0, 0, 0, 0, 0, 0, 0, 0);
    for i := 0 to |rows|
      invariant n == CountsOf(rows[..i]).(total := |rows|)
    {
      assert rows[..i + 1][..i] == rows[..i];
      match rows[i].fetchState {
        case Cached => n := n.(cached := n.cached + 1);
        case Fetched => n := n.(fetched := n.fetched + 1);
        case Failed => n := n.(fetchFailed := n.fetchFailed + 1);
        case Skipped =>
      }
      if rows[i].entrypoint.None? {
        n := n.(noEntrypoint := n.noEntrypoint + 1);
      }
      match rows[i].probeState {
        case Pass => n := n.(probePass := n.probePass + 1);
        case Fail => n := n.(probeFail := n.probeFail + 1);
        case Timeout => n := n.(probeTimeout := n.probeTimeout + 1);
        case NotAttempted => n := n.(probeNotAttempted := n.probeNotAttempted + 1);
      }
    }
    assert rows[..|rows|] == rows;
  }

  ghost predicate Processed(w: World, row: ProbeResult) {
    exists item :: row == ProcessSpec(w, item)
  }

  ghost predicate RowShape(w: World, row: ProbeResult) {
    row.fetchState != Skipped && (row.probeState == NotAttempted <==> w.noProbe || row.entrypoint.None?)
  }

  lemma ProcessedShape(w: World, row: ProbeResult)
    requires Processed(w, row)
    ensures RowShape(w, row)
  {
    var item :| row == ProcessSpec(w, item);
  }

  lemma CountsOfLast(rows: seq<ProbeResult>)
    requires rows != []
    ensures var n, m, r := CountsOf(rows), CountsOf(rows[..|rows| - 1]), rows[|rows| - 1];
            && n.total == m.total + 1
            && n.cached == m.cached + (if r.fetchState == Cached then 1 else 0)
            && n.fetched == m.fetched + (if r.fetchState == Fetched then 1 else 0)
            && n.fetchFailed == m.fetchFailed + (if r.fetchState == Failed then 1 else 0)
            && n.noEntrypoint == m.noEntrypoint + (if r.entrypoint.None? then 1 else 0)
            && n.probePass == m.probePass + (if r.probeState == Pass then 1 else 0)
            && n.probeFail == m.probeFail + (if r.probeState == Fail then 1 else 0)
            && n.probeTimeout == m.probeTimeout + (if r.probeState == Timeout then 1 else 0)
            && n.probeNotAttempted == m.probeNotAttempted + (if r.probeState == NotAttempted then 1 else 0)
  {
  }

  /** The counters partition the rows by fetch state and by probe state, and a row
      goes unprobed exactly when it has no entrypoint or probing is off. */
  lemma {:induction false} CountsPartition(w: World, rows: seq<ProbeResult>)
    requires forall k :: 0 <= k < |rows| ==> Processed(w, rows[k])
    ensures var n := CountsOf(rows);
            && n.cached + n.fetched + n.fetchFailed == n.total
            && n.probePass + n.probeFail + n.probeTimeout + n.probeNotAttempted == n.total
            && n.probeNotAttempted == if w.noProbe then n.total else n.noEntrypoint
  {
    if rows != [] {
      CountsPartition(w, rows[..|rows| - 1]);
      ProcessedShape(w, rows[|rows| - 1]);
      CountsOfLast(rows);
    }
  }

  /** The counters of any finished run. */
  lemma FinishedCounts(c: Config, w: World, schedule: seq<Label>)
    requires ValidConfig(c) && Legal(c, schedule) && After(c, schedule).main.Finished?
    requires forall item :: c.process(item) == ProcessSpec(w, item)
    ensures var n := CountsOf(SortBy(After(c, schedule).results, ReportLe));
            && n.total == |c.selected|
            && n.cached + n.fetched + n.fetchFailed == |c.selected|
            && n.probePass + n.probeFail + n.probeTimeout + n.probeNotAttempted == |c.selected|
            && n.probeNotAttempted == if w.noProbe then |c.selected| else n.noEntrypoint
  {
    var results := After(c, schedule).results;
    var rows := SortBy(results, ReportLe);
    EveryCandidateProcessedOnce(c, schedule);
    SortPermutes(results, ReportLe);
    SameSize(results, Map(c.selected, c.process));
    SameElements(rows, Map(c.selected, c.process));
    forall k | 0 <= k < |rows| ensures Processed(w, rows[k]) {
      assert rows[k] in Map(c.selected, c.process);
      var i :| 0 <= i < |c.selected| && rows[k] == c.process(c.selected[i]);
      assert rows[k] == ProcessSpec(w, c.selected[i]);
    }
    CountsPartition(w, rows);
  }

  // ---- progress and termination of every schedule ----

  function Fuel(s: State): nat {
    4 * |s.queue| + TotalWeight(s.workers) + |s.channel|
    + match s.main { case Spawning(_) => 2 case Receiving => 1 case _ => 0 }
  }

  lemma StepBurnsFuel(c: Config, s: State, l: Label)
    requires Inv(c, s) && Enabled(c, s, l)
    ensures Fuel(Step(c, s, l)) < Fuel(s)
  {
    var t := Step(c, s, l);
    match l
    case Spawn => WeightUpdate(s.workers, s.main.started, Ready);
    case Pop(w) => WeightUpdate(s.workers, w, t.workers[w]);
    case Send(w) => WeightUpdate(s.workers, w, t.workers[w]);
    case _ =>
  }

  /** No schedule is infinite. */
  lemma {:induction false} SchedulesAreBounded(c: Config, schedule: seq<Label>)
    requires ValidConfig(c) && Legal(c, schedule)
    ensures |schedule| + Fuel(After(c, schedule)) <= 4 * |c.selected| + 2 * c.workers + 2
    decreases |schedule|
  {
    if schedule == [] {
      InitialWeight(c.workers);
    } else {
      var before := schedule[..|schedule| - 1];
      SchedulesAreBounded(c, before);
      EveryScheduleKeepsInv(c, before);
      StepBurnsFuel(c, After(c, before), schedule[|schedule| - 1]);
    }
  }

  /** No schedule is stuck before the main thread has all its results. */
  lemma NeverDeadlocks(c: Config, schedule: seq<Label>)
    requires ValidConfig(c) && Legal(c, schedule) && !After(c, schedule).main.Finished?
    ensures exists l :: Enabled(c, After(c, schedule), l) && !l.ChannelClosed?
  {
    var s := After(c, schedule);
    EveryScheduleKeepsInv(c, schedule);
    if s.main.Spawning? {
      assert Enabled(c, s, Spawn) || Enabled(c, s, DropSender);
    } else if w :| 0 <= w < |s.workers| && !s.workers[w].Exited? {
      assert Enabled(c, s, Pop(w)) || Enabled(c, s, Send(w));
    } else {
      AllSent(c, s);
      assert |s.results + s.channel| == |c.selected|;
      assert Enabled(c, s, Finish) || Enabled(c, s, Receive);
    }
  }
}
