/** `execute_cases` of the release-binary end-to-end harness: workers claim
    indexes with an atomic `fetch_add`, run a case and send the outcome over a
    channel, and the main thread files the outcomes into ordered slots.

    The parallel branch is a state machine over labelled steps; a schedule is any
    sequence of labels, so a statement about every legal schedule is a statement
    about every interleaving. */
module CaseExecutor {
  import opened Sequences
  import opened WorkerPool
  import opened Wrappers

  type Entry(!new)
  type Case(!new)
  type Failure(!new)

  /** A case that failed, with the entry its context names, or an empty slot. */
  datatype RunError = CaseFailed(entry: Entry, cause: Failure) | MissingResult(index: nat)

  /** `run` is what running one case does: it is left uninterpreted. */
  datatype Config = Config(selected: seq<Entry>, run: Entry -> Result<Case, Failure>, jobs: nat)

  const USIZE_RANGE: nat := 0x1_0000_0000_0000_0000
  const MAX_VEC_LEN: nat := 0x7FFF_FFFF_FFFF_FFFF

  /** The jobs `execute_cases` starts: as many as asked for, but at least one if there is
      anything to do, and never more than cases. */
  function EffectiveJobs(requested: nat, total: nat): (jobs: nat)
    ensures jobs <= total && (total > 0 ==> jobs > 0)
    ensures 1 <= requested <= total ==> jobs == requested
    ensures requested > total ==> jobs == total
  {
    var atLeastOne := if requested < 1 then 1 else requested;
    if atLeastOne < total then atLeastOne else total
  }

  ghost predicate ValidConfig(c: Config) {
    |c.selected| <= MAX_VEC_LEN && exists requested: nat :: c.jobs == EffectiveJobs(requested, |c.selected|)
  }

  function RunCase(c: Config, i: nat): Result<Case, RunError>
    requires i < |c.selected|
  {
    match c.run(c.selected[i])
    case Ok(result) => Ok(result)
    case Err(cause) => Err(CaseFailed(c.selected[i], cause))
  }

  // ---- the sequential branch ----

  function SequentialFrom(c: Config, i: nat): Result<seq<Case>, RunError>
    requires i <= |c.selected|
    decreases |c.selected| - i
  {
    if i == |c.selected| then Ok([])
    else match RunCase(c, i)
      case Err(e) => Err(e)
      case Ok(result) =>
        match SequentialFrom(c, i + 1)
        case Err(e) => Err(e)
        case Ok(rest) => Ok([result] + rest)
  }

  function Sequential(c: Config): Result<seq<Case>, RunError> {
    SequentialFrom(c, 0)
  }

  /** The `jobs == 1` loop. */
  method RunSequentially(c: Config) returns (r: Result<seq<Case>, RunError>)
    ensures r == Sequential(c)
  {
    var results: seq<Case> := [];
    assert Sequential(c).Ok? ==> results + Sequential(c).value == Sequential(c).value;
    for i := 0 to |c.selected|
      invariant |results| == i
      invariant Sequential(c) == match SequentialFrom(c, i) {
                  case Ok(rest) => Ok(results + rest)
                  case Err(e) => Err(e)
                }
    {
      match RunCase(c, i) {
        case Err(e) => return Err(e);
        case Ok(result) => results := results + [result];
      }
      assert forall rest: seq<Case> :: results[..i] + ([results[i]] + rest) == results + rest;
    }
    assert results + [] == results;
    return Ok(results);
  }

  lemma {:induction false} SequentialMeaning(c: Config, i: nat)
    requires i <= |c.selected|
    ensures SequentialFrom(c, i).Ok? <==> forall k :: i <= k < |c.selected| ==> RunCase(c, k).Ok?
    ensures SequentialFrom(c, i).Ok? ==>
              var list := SequentialFrom(c, i).value;
              |list| == |c.selected| - i && forall k :: 0 <= k < |list| ==> Ok(list[k]) == RunCase(c, i + k)
    decreases |c.selected| - i
  {
    if i < |c.selected| {
      SequentialMeaning(c, i + 1);
      if SequentialFrom(c, i).Ok? {
        var list, rest := SequentialFrom(c, i).value, SequentialFrom(c, i + 1).value;
        forall k | 0 <= k < |list| ensures Ok(list[k]) == RunCase(c, i + k) {
          if k > 0 { assert list[k] == rest[k - 1]; }
        }
      }
    }
  }

  /** The sequential loop in terms of the cases: their results in order, or the first
      failure, which names its own entry. */
  lemma SequentialInOrder(c: Config)
    ensures match Sequential(c) {
      case Ok(list) =>
        |list| == |c.selected| && forall k :: 0 <= k < |list| ==> c.run(c.selected[k]) == Ok(list[k])
      case Err(e) =>
        exists k :: 0 <= k < |c.selected| && FailsFirst(c, 0, k, e)
    }
  {
    SequentialMeaning(c, 0);
    if Sequential(c).Err? { var k := SequentialFailure(c, 0); }
  }

  /** Case `k` is the first from `i` on to fail, and `e` is its failure. */
  ghost predicate FailsFirst(c: Config, i: nat, k: nat, e: RunError)
    requires k < |c.selected|
  {
    && (forall j :: i <= j < k ==> c.run(c.selected[j]).Ok?)
    && c.run(c.selected[k]).Err? && e == CaseFailed(c.selected[k], c.run(c.selected[k]).error)
  }

  lemma {:induction false} SequentialFailure(c: Config, i: nat) returns (k: nat)
    requires i <= |c.selected| && SequentialFrom(c, i).Err?
    ensures i <= k < |c.selected| && FailsFirst(c, i, k, SequentialFrom(c, i).error)
    decreases |c.selected| - i
  {
    k := i;
    if RunCase(c, i).Ok? { k := SequentialFailure(c, i + 1); }
  }

  // ---- the parallel branch ----

  datatype Main = Spawning(started: nat) | Receiving | Closed

  type Message = Result<(nat, Case), RunError>

  /** `sent` is history: the indexes whose message was sent, in channel order. */
  datatype State = State(
    counter: nat,
    workers: seq<Worker>,
    main: Main,
    channel: seq<Message>,
    ordered: seq<Option<Case>>,
    firstError: Option<RunError>,
    sent: seq<nat>)

  datatype Label = Spawn | DropSender | Claim(worker: nat) | Send(worker: nat) | Receive | Close

  function Init(c: Config): State {
    State(0, seq(c.jobs, _ => Unspawned), Spawning(0), [], seq(|c.selected|, _ => None), None, [])
  }

  function MessageFor(c: Config, i: nat): Message
    requires i < |c.selected|
  {
    match RunCase(c, i)
    case Ok(result) => Ok((i, result))
    case Err(e) => Err(e)
  }

  predicate Enabled(c: Config, s: State, l: Label) {
    match l
    case Spawn => s.main.Spawning? && s.main.started < c.jobs && s.main.started < |s.workers|
    case DropSender => s.main.Spawning? && s.main.started >= c.jobs
    case Claim(w) => w < |s.workers| && s.workers[w].Ready?
    case Send(w) => w < |s.workers| && s.workers[w].Holding? && s.workers[w].index < |c.selected|
    case Receive => s.main.Receiving? && s.channel != []
                    && (s.channel[0].Ok? ==> s.channel[0].value.0 < |s.ordered|)
    case Close => s.main.Receiving? && s.channel == [] && forall w :: w in s.workers ==> w.Exited?
  }

  /** One atomic step. `Claim` is `fetch_add(1)` on a wrapping counter; `Send`
      fails, and the worker leaves, exactly when the receiver is gone. */
  function Step(c: Config, s: State, l: Label): State
    requires Enabled(c, s, l)
  {
    match l
    case Spawn =>
      s.(workers := s.workers[s.main.started := Ready], main := Spawning(s.main.started + 1))
    case DropSender => s.(main := Receiving)
    case Claim(w) =>
      s.(counter := (s.counter + 1) % USIZE_RANGE,
         workers := s.workers[w := if s.counter >= |c.selected| then Exited else Holding(s.counter)])
    case Send(w) =>
      if s.main.Closed? then s.(workers := s.workers[w := Exited])
      else
        var i := s.workers[w].index;
        s.(workers := s.workers[w := Ready], channel := s.channel + [MessageFor(c, i)], sent := s.sent + [i])
    case Receive =>
      var rest := s.(channel := s.channel[1..]);
      (match s.channel[0]
       case Ok(slot) => rest.(ordered := s.ordered[slot.0 := Some(slot.1)])
       case Err(e) => if s.firstError.None? then rest.(firstError := Some(e)) else rest)
    case Close => s.(main := Closed)
  }

  /** `ordered.into_iter().enumerate().map(..).collect()` */
  function Collect(ordered: seq<Option<Case>>, index: nat): Result<seq<Case>, RunError>
    requires index <= |ordered|
    decreases |ordered| - index
  {
    if index == |ordered| then Ok([])
    else if ordered[index].None? then Err(MissingResult(index))
    else match Collect(ordered, index + 1)
      case Err(e) => Err(e)
      case Ok(rest) => Ok([ordered[index].value] + rest)
  }

  /** What the parallel branch returns once the channel is closed. */
  function Returned(s: State): Result<seq<Case>, RunError> {
    if s.firstError.Some? then Err(s.firstError.value) else Collect(s.ordered, 0)
  }

  // ---- schedules ----

  ghost predicate Legal(c: Config, schedule: seq<Label>)
    decreases |schedule|, 0
  {
    schedule == [] ||
    (var before := schedule[..|schedule| - 1];
     Legal(c, before) && Enabled(c, After(c, before), schedule[|schedule| - 1]))
  }

  /** The state a legal schedule reaches. */
  ghost function After(c: Config, schedule: seq<Label>): State
    requires Legal(c, schedule)
    decreases |schedule|, 1
  {
    if schedule == [] then Init(c)
    else Step(c, After(c, schedule[..|schedule| - 1]), schedule[|schedule| - 1])
  }

  // ---- the invariant of every reachable state ----

  function Claimed(c: Config, s: State): nat {
    if s.counter < |c.selected| then s.counter else |c.selected|
  }

  function ExitedCount(ws: seq<Worker>): nat {
    if ws == [] then 0 else (if ws[0].Exited? then 1 else 0) + ExitedCount(ws[1..])
  }

  ghost predicate InRange(c: Config, indexes: seq<nat>) {
    forall k :: 0 <= k < |indexes| ==> indexes[k] < |c.selected|
  }

  /** The error the collector keeps after seeing the outcomes of `seen` in order. */
  ghost function FirstFailure(c: Config, seen: seq<nat>): Option<RunError>
    requires InRange(c, seen)
  {
    if seen == [] then None
    else
      var last := seen[|seen| - 1];
      var earlier := FirstFailure(c, seen[..|seen| - 1]);
      if earlier.Some? then earlier
      else if RunCase(c, last).Err? then Some(RunCase(c, last).error) else None
  }

  ghost predicate WorkersInv(c: Config, s: State) {
    && |s.workers| == c.jobs
    && (s.main.Spawning? ==>
          s.main.started <= c.jobs && forall w :: s.main.started <= w < c.jobs ==> s.workers[w].Unspawned?)
    && (forall w :: 0 <= w < c.jobs && s.workers[w].Unspawned? ==> s.main.Spawning? && s.main.started <= w)
    && s.counter <= |c.selected| + ExitedCount(s.workers)
    && (ExitedCount(s.workers) > 0 ==> s.counter >= |c.selected|)
    && (s.main.Closed? ==> s.channel == [] && forall w :: 0 <= w < c.jobs ==> s.workers[w].Exited?)
  }

  /** Every claimed index is either held by one worker or sent once, never both. */
  ghost predicate OwnershipInv(c: Config, s: State) {
    && Distinct(s.sent)
    && (forall i :: i in s.sent ==> i < Claimed(c, s) && !Held(s.workers, i))
    && (forall w :: 0 <= w < |s.workers| && s.workers[w].Holding? ==> s.workers[w].index < Claimed(c, s))
    && (forall v, w :: 0 <= v < w < |s.workers| && s.workers[v].Holding? ==> s.workers[v] != s.workers[w])
    && (forall i :: 0 <= i < Claimed(c, s) ==> i in s.sent || Held(s.workers, i))
  }

  /** The collector has filed exactly the messages no longer in the channel. */
  ghost predicate CollectorInv(c: Config, s: State) {
    && InRange(c, s.sent)
    && |s.channel| <= |s.sent|
    && InTransit(c, s.sent, s.channel)
    && s.firstError == FirstFailure(c, s.sent[..|s.sent| - |s.channel|])
    && Filed(c, s.ordered, s.sent[..|s.sent| - |s.channel|])
  }

  /** The channel holds the messages of the last indexes sent. */
  ghost predicate InTransit(c: Config, sent: seq<nat>, channel: seq<Message>)
    requires InRange(c, sent) && |channel| <= |sent|
  {
    forall k :: 0 <= k < |channel| ==> channel[k] == MessageFor(c, sent[|sent| - |channel| + k])
  }

  /** Exactly the received indexes that succeeded have their slot filled. */
  ghost predicate Filed(c: Config, ordered: seq<Option<Case>>, seen: seq<nat>) {
    && |ordered| == |c.selected|
    && forall i :: 0 <= i < |ordered| ==>
         ordered[i] == (if i in seen && RunCase(c, i).Ok? then Some(RunCase(c, i).value) else None)
  }

  ghost predicate Inv(c: Config, s: State) {
    WorkersInv(c, s) && OwnershipInv(c, s) && CollectorInv(c, s)
  }

  lemma {:induction false} ExitedUpdate(ws: seq<Worker>, w: nat, to: Worker)
    requires w < |ws| && !ws[w].Exited?
    ensures ExitedCount(ws[w := to]) == ExitedCount(ws) + if to.Exited? then 1 else 0
    ensures ExitedCount(ws) < |ws|
  {
    ExitedAtMost(ws[1..]);
    if w > 0 {
      ExitedUpdate(ws[1..], w - 1, to);
      assert ws[w := to][1..] == ws[1..][w - 1 := to];
    } else {
      assert ws[w := to][1..] == ws[1..];
    }
  }

  lemma {:induction false} ExitedAtMost(ws: seq<Worker>)
    ensures ExitedCount(ws) <= |ws|
  {
    if ws != [] { ExitedAtMost(ws[1..]); }
  }

  lemma {:induction false} NoneExited(ws: seq<Worker>)
    requires forall w :: w in ws ==> !w.Exited?
    ensures ExitedCount(ws) == 0
  {
    if ws != [] { NoneExited(ws[1..]); }
  }

  lemma InitInv(c: Config)
    ensures Inv(c, Init(c))
  {
    NoneExited(Init(c).workers);
  }

  lemma ClaimKeepsInv(c: Config, s: State, w: nat)
    requires ValidConfig(c) && Inv(c, s) && Enabled(c, s, Claim(w))
    ensures Inv(c, Step(c, s, Claim(w)))
  {
    hide InTransit, Filed, FirstFailure;
    var t := Step(c, s, Claim(w));
    ExitedUpdate(s.workers, w, t.workers[w]);
    ExitedAtMost(s.workers);
    assert t.counter == s.counter + 1;
    ClaimKeepsOwnership(c, s, t, w);
  }

  lemma ClaimKeepsOwnership(c: Config, s: State, t: State, w: nat)
    requires OwnershipInv(c, s) && w < |s.workers| && s.workers[w].Ready?
    requires t.counter == s.counter + 1 && t.sent == s.sent
    requires t.workers == s.workers[w := if s.counter >= |c.selected| then Exited else Holding(s.counter)]
    ensures OwnershipInv(c, t)
  {
    assert forall v :: 0 <= v < |s.workers| && v != w ==> t.workers[v] == s.workers[v];
    forall i | 0 <= i < Claimed(c, t) ensures i in t.sent || Held(t.workers, i) {
      if i < Claimed(c, s) {
        if i !in s.sent {
          var v :| 0 <= v < |s.workers| && s.workers[v] == Holding(i);
          assert t.workers[v] == Holding(i);
        }
      } else {
        assert t.workers[w] == Holding(i);
      }
    }
    forall i | i in t.sent ensures !Held(t.workers, i) {
      assert i < Claimed(c, s) && !Held(s.workers, i);
    }
  }

  lemma SendKeepsInv(c: Config, s: State, w: nat)
    requires Inv(c, s) && Enabled(c, s, Send(w))
    ensures !s.main.Closed?
    ensures Inv(c, Step(c, s, Send(w)))
  {
    hide FirstFailure, RunCase, Filed, MessageFor;
    var t := Step(c, s, Send(w));
    var i := s.workers[w].index;
    assert Held(s.workers, i);
    assert i !in s.sent;
    ExitedUpdate(s.workers, w, t.workers[w]);
    SendKeepsOwnership(c, s, t, w);
    var received := |s.sent| - |s.channel|;
    assert t.sent[..received] == s.sent[..received];
  }

  lemma SendKeepsOwnership(c: Config, s: State, t: State, w: nat)
    requires OwnershipInv(c, s) && w < |s.workers| && s.workers[w].Holding? && s.workers[w].index !in s.sent
    requires t.workers == s.workers[w := Ready] && t.sent == s.sent + [s.workers[w].index] && t.counter == s.counter
    ensures OwnershipInv(c, t)
  {
    var i := s.workers[w].index;
    assert forall v :: 0 <= v < |s.workers| && v != w ==> t.workers[v] == s.workers[v];
    forall k | k in t.sent ensures k < Claimed(c, t) && !Held(t.workers, k) {
      if k != i { assert k in s.sent; }
    }
    forall k | 0 <= k < Claimed(c, t) ensures k in t.sent || Held(t.workers, k) {
      if k != i && k !in s.sent {
        var v :| 0 <= v < |s.workers| && s.workers[v] == Holding(k);
        assert t.workers[v] == Holding(k);
      } else {
        assert i in t.sent;
        assert forall x :: x in s.sent ==> x in t.sent;
      }
    }
  }

  lemma ReceiveKeepsInv(c: Config, s: State)
    requires Inv(c, s) && Enabled(c, s, Receive)
    ensures Inv(c, Step(c, s, Receive))
  {
    var t := Step(c, s, Receive);
    assert t.workers == s.workers && t.sent == s.sent && t.main == s.main && t.counter == s.counter;
    ReceiveKeepsCollector(c, s);
  }

  /** A receive files the outcome of the oldest unreceived index. */
  lemma ReceiveFiles(c: Config, s: State)
    requires CollectorInv(c, s) && Enabled(c, s, Receive)
    ensures var t, i := Step(c, s, Receive), s.sent[|s.sent| - |s.channel|];
      && t.sent == s.sent && t.channel == s.channel[1..]
      && t.ordered == (if RunCase(c, i).Ok? then s.ordered[i := Some(RunCase(c, i).value)] else s.ordered)
      && t.firstError == if s.firstError.None? && RunCase(c, i).Err? then Some(RunCase(c, i).error) else s.firstError
  {
    hide FirstFailure;
    assert s.channel[0] == MessageFor(c, s.sent[|s.sent| - |s.channel|]);
  }

  lemma FirstFailureStep(c: Config, sent: seq<nat>, n: nat)
    requires InRange(c, sent) && n < |sent|
    ensures FirstFailure(c, sent[..n + 1]) ==
      var earlier := FirstFailure(c, sent[..n]);
      if earlier.None? && RunCase(c, sent[n]).Err? then Some(RunCase(c, sent[n]).error) else earlier
  {
    assert sent[..n + 1][..n] == sent[..n];
  }

  lemma ReceiveKeepsCollector(c: Config, s: State)
    requires CollectorInv(c, s) && Enabled(c, s, Receive)
    ensures CollectorInv(c, Step(c, s, Receive))
  {
    hide Step, FirstFailure, RunCase, MessageFor, Filed, InTransit;
    var received := |s.sent| - |s.channel|;
    ReceiveFiles(c, s);
    FirstFailureStep(c, s.sent, received);
    ReceiveFills(c, s.ordered, s.sent, received);
    InTransitTail(c, s.sent, s.channel);
    var t := Step(c, s, Receive);
    assert |t.sent| - |t.channel| == received + 1;
  }

  lemma InTransitTail(c: Config, sent: seq<nat>, channel: seq<Message>)
    requires InRange(c, sent) && 0 < |channel| <= |sent| && InTransit(c, sent, channel)
    ensures InTransit(c, sent, channel[1..])
  {
    hide MessageFor;
    assert forall k :: 0 <= k < |channel| - 1 ==> channel[1..][k] == channel[k + 1];
  }

  lemma ReceiveFills(c: Config, ordered: seq<Option<Case>>, sent: seq<nat>, n: nat)
    requires n < |sent| && sent[n] < |c.selected| && Filed(c, ordered, sent[..n])
    ensures var i := sent[n];
      Filed(c, if RunCase(c, i).Ok? then ordered[i := Some(RunCase(c, i).value)] else ordered, sent[..n + 1])
  {
    hide RunCase;
    SeenGrows(sent, n);
  }

  lemma SeenGrows(sent: seq<nat>, n: nat)
    requires n < |sent|
    ensures forall k :: k in sent[..n + 1] <==> k in sent[..n] || k == sent[n]
  {
    assert sent[..n + 1] == sent[..n] + [sent[n]];
  }

  lemma SpawnKeepsInv(c: Config, s: State)
    requires Inv(c, s) && Enabled(c, s, Spawn)
    ensures Inv(c, Step(c, s, Spawn))
  {
    var t := Step(c, s, Spawn);
    ExitedUpdate(s.workers, s.main.started, Ready);
    assert forall v :: 0 <= v < |s.workers| && v != s.main.started ==> t.workers[v] == s.workers[v];
    forall i ensures Held(s.workers, i) <==> Held(t.workers, i) {
      if Held(s.workers, i) {
        var v :| 0 <= v < |s.workers| && s.workers[v] == Holding(i);
        assert t.workers[v] == Holding(i);
      }
    }
  }

  lemma StepKeepsInv(c: Config, s: State, l: Label)
    requires ValidConfig(c) && Inv(c, s) && Enabled(c, s, l)
    ensures Inv(c, Step(c, s, l))
  {
    match l
    case Spawn => SpawnKeepsInv(c, s);
    case DropSender => assert CollectorInv(c, Step(c, s, l));
    case Claim(w) => ClaimKeepsInv(c, s, w);
    case Send(w) => SendKeepsInv(c, s, w);
    case Receive => ReceiveKeepsInv(c, s);
    case Close => assert CollectorInv(c, Step(c, s, l));
  }

  lemma {:induction false} EveryScheduleKeepsInv(c: Config, schedule: seq<Label>)
    requires ValidConfig(c) && Legal(c, schedule)
    ensures Inv(c, After(c, schedule))
    decreases |schedule|
  {
    if schedule == [] {
      InitInv(c);
    } else {
      EveryScheduleKeepsInv(c, schedule[..|schedule| - 1]);
      StepKeepsInv(c, After(c, schedule[..|schedule| - 1]), schedule[|schedule| - 1]);
    }
  }

  // ---- main results ----

  /** In every reachable state the counter is at most `total + jobs` (so it never
      wraps), each claimed index below `total` is held by exactly one worker or
      was sent exactly once and is held by none, and nothing else was sent. */
  lemma ClaimedExactlyOnce(c: Config, schedule: seq<Label>)
    requires ValidConfig(c) && Legal(c, schedule)
    ensures var s := After(c, schedule);
            && s.counter <= |c.selected| + c.jobs < USIZE_RANGE
            && (forall i :: 0 <= i < |c.selected| ==>
                  (i < s.counter ==>
                     (multiset(s.sent)[i] == 1 && !Held(s.workers, i))
                     || (multiset(s.sent)[i] == 0
                         && exists w :: 0 <= w < |s.workers| && s.workers[w] == Holding(i)
                                        && forall v :: 0 <= v < |s.workers| && s.workers[v] == Holding(i) ==> v == w))
                  && (i >= s.counter ==> i !in s.sent && !Held(s.workers, i)))
  {
    var s := After(c, schedule);
    EveryScheduleKeepsInv(c, schedule);
    ExitedAtMost(s.workers);
    forall i | 0 <= i < |c.selected| && i < s.counter
      ensures (multiset(s.sent)[i] == 1 && !Held(s.workers, i))
              || (multiset(s.sent)[i] == 0
                  && exists w :: 0 <= w < |s.workers| && s.workers[w] == Holding(i)
                                 && forall v :: 0 <= v < |s.workers| && s.workers[v] == Holding(i) ==> v == w)
    {
      if i in s.sent {
        DistinctOnce(s.sent, i);
      } else {
        assert i < Claimed(c, s) && Held(s.workers, i);
        var w :| 0 <= w < |s.workers| && s.workers[w] == Holding(i);
        assert forall v :: 0 <= v < |s.workers| && s.workers[v] == Holding(i) ==> v == w;
      }
    }
  }

  lemma {:induction false} FirstFailureMeaning(c: Config, seen: seq<nat>)
    requires InRange(c, seen)
    ensures FirstFailure(c, seen).None? <==> forall k :: 0 <= k < |seen| ==> RunCase(c, seen[k]).Ok?
    ensures FirstFailure(c, seen).Some? ==>
              exists k :: 0 <= k < |seen| && RunCase(c, seen[k]) == Err(FirstFailure(c, seen).value)
  {
    if seen != [] {
      var before := seen[..|seen| - 1];
      FirstFailureMeaning(c, before);
      if FirstFailure(c, before).Some? {
        var k :| 0 <= k < |before| && RunCase(c, before[k]) == Err(FirstFailure(c, before).value);
        assert seen[k] == before[k];
      } else if FirstFailure(c, seen).Some? {
        assert RunCase(c, seen[|seen| - 1]) == Err(FirstFailure(c, seen).value);
      } else {
        assert forall k :: 0 <= k < |before| ==> seen[k] == before[k];
      }
    }
  }

  lemma {:induction false} CollectFull(c: Config, ordered: seq<Option<Case>>, index: nat)
    requires |ordered| == |c.selected| && index <= |ordered|
    requires forall i :: 0 <= i < |ordered| ==> RunCase(c, i).Ok? && ordered[i] == Some(RunCase(c, i).value)
    ensures Collect(ordered, index) == SequentialFrom(c, index)
    decreases |ordered| - index
  {
    if index < |ordered| { CollectFull(c, ordered, index + 1); }
  }

  lemma ClosedSentAll(c: Config, s: State)
    requires ValidConfig(c) && Inv(c, s) && s.main.Closed?
    ensures forall i :: 0 <= i < |c.selected| ==> i in s.sent && multiset(s.sent)[i] == 1
  {
    if c.selected != [] {
      assert s.workers[0].Exited?;
      assert ExitedCount(s.workers) > 0;
    }
    forall i | 0 <= i < |c.selected| ensures i in s.sent && multiset(s.sent)[i] == 1 {
      assert i < Claimed(c, s) && !Held(s.workers, i);
      DistinctOnce(s.sent, i);
    }
  }

  lemma ClosedReturns(c: Config, s: State)
    requires CollectorInv(c, s) && s.channel == [] && forall i :: 0 <= i < |c.selected| ==> i in s.sent
    ensures Returned(s).Ok? <==> Sequential(c).Ok?
    ensures Returned(s).Ok? ==> Returned(s) == Sequential(c)
    ensures Returned(s).Err? ==> FirstFailure(c, s.sent) == Some(Returned(s).error)
  {
    assert s.sent[..|s.sent|] == s.sent;
    FirstFailureMeaning(c, s.sent);
    SequentialMeaning(c, 0);
    if s.firstError.None? {
      forall i | 0 <= i < |c.selected| ensures RunCase(c, i).Ok? {
        assert i in s.sent;
        var k :| 0 <= k < |s.sent| && s.sent[k] == i;
        assert RunCase(c, s.sent[k]).Ok?;
      }
      CollectFull(c, s.ordered, 0);
    } else {
      var k :| 0 <= k < |s.sent| && RunCase(c, s.sent[k]) == Err(s.firstError.value);
    }
  }

  /** For every interleaving that runs to completion, every index was sent exactly
      once, "missing result for index" is not returned, and the parallel branch
      returns `Ok` exactly when the sequential branch does, with the same list in
      the same order; otherwise it returns the failure that was sent first. */
  lemma ParallelRefinesSequential(c: Config, schedule: seq<Label>)
    requires ValidConfig(c) && Legal(c, schedule) && After(c, schedule).main.Closed?
    ensures var s := After(c, schedule);
            && (forall i :: 0 <= i < |c.selected| ==> multiset(s.sent)[i] == 1)
            && InRange(c, s.sent)
            && (Returned(s).Ok? <==> Sequential(c).Ok?)
            && (Returned(s).Ok? ==> Returned(s) == Sequential(c))
            && (Returned(s).Err? ==> FirstFailure(c, s.sent) == Some(Returned(s).error))
  {
    EveryScheduleKeepsInv(c, schedule);
    ClosedSentAll(c, After(c, schedule));
    ClosedReturns(c, After(c, schedule));
  }

  // ---- progress and termination of every schedule ----

  /** Bounds the steps any continuation can still take. */
  function Fuel(c: Config, s: State): nat {
    4 * (|c.selected| - Claimed(c, s)) + TotalWeight(s.workers) + |s.channel|
    + match s.main { case Spawning(_) => 2 case Receiving => 1 case Closed => 0 }
  }

  lemma SpawnBurnsFuel(c: Config, s: State)
    requires Inv(c, s) && Enabled(c, s, Spawn)
    ensures Fuel(c, Step(c, s, Spawn)) < Fuel(c, s)
  {
    hide OwnershipInv, CollectorInv, TotalWeight;
    WeightUpdate(s.workers, s.main.started, Ready);
  }

  lemma ClaimBurnsFuel(c: Config, s: State, w: nat)
    requires ValidConfig(c) && Inv(c, s) && Enabled(c, s, Claim(w))
    ensures Fuel(c, Step(c, s, Claim(w))) < Fuel(c, s)
  {
    hide OwnershipInv, CollectorInv, TotalWeight;
    ExitedAtMost(s.workers);
    WeightUpdate(s.workers, w, Step(c, s, Claim(w)).workers[w]);
  }

  lemma SendBurnsFuel(c: Config, s: State, w: nat)
    requires Inv(c, s) && Enabled(c, s, Send(w))
    ensures Fuel(c, Step(c, s, Send(w))) < Fuel(c, s)
  {
    hide OwnershipInv, CollectorInv, TotalWeight, MessageFor;
    WeightUpdate(s.workers, w, Step(c, s, Send(w)).workers[w]);
  }

  lemma StepBurnsFuel(c: Config, s: State, l: Label)
    requires ValidConfig(c) && Inv(c, s) && Enabled(c, s, l)
    ensures Fuel(c, Step(c, s, l)) < Fuel(c, s)
  {
    hide Inv, TotalWeight;
    match l
    case Spawn => SpawnBurnsFuel(c, s);
    case DropSender =>
    case Claim(w) => ClaimBurnsFuel(c, s, w);
    case Send(w) => SendBurnsFuel(c, s, w);
    case Receive =>
    case Close =>
  }

  /** No schedule is infinite: a legal schedule has at most
      `4 * total + 2 * jobs + 2` steps. */
  lemma {:induction false} SchedulesAreBounded(c: Config, schedule: seq<Label>)
    requires ValidConfig(c) && Legal(c, schedule)
    ensures |schedule| + Fuel(c, After(c, schedule)) <= 4 * |c.selected| + 2 * c.jobs + 2
    decreases |schedule|
  {
    if schedule == [] {
      InitialWeight(c.jobs);
    } else {
      var before := schedule[..|schedule| - 1];
      SchedulesAreBounded(c, before);
      EveryScheduleKeepsInv(c, before);
      StepBurnsFuel(c, After(c, before), schedule[|schedule| - 1]);
    }
  }

  /** No schedule is stuck: until the channel is closed some step is enabled. */
  lemma NeverDeadlocks(c: Config, schedule: seq<Label>)
    requires ValidConfig(c) && Legal(c, schedule) && !After(c, schedule).main.Closed?
    ensures exists l :: Enabled(c, After(c, schedule), l)
  {
    var s := After(c, schedule);
    EveryScheduleKeepsInv(c, schedule);
    if s.main.Spawning? {
      assert Enabled(c, s, Spawn) || Enabled(c, s, DropSender);
    } else if s.channel != [] {
      assert s.channel[0] == MessageFor(c, s.sent[|s.sent| - |s.channel|]);
      assert Enabled(c, s, Receive);
    } else if w :| 0 <= w < |s.workers| && !s.workers[w].Exited? {
      assert Enabled(c, s, Claim(w)) || Enabled(c, s, Send(w));
    } else {
      assert Enabled(c, s, Close);
    }
  }
}
