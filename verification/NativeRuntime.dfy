/** `NativeBenchRuntime`, the hostcall state machine of the native benchmark, and its
    tool round trip. A completion payload is reduced to the boolean it holds, if any. */
module NativeRuntime {
  import opened Integers
  import opened Wrappers

  datatype Payload = Success(flag: Option<bool>) | OtherOutcome

  datatype Error = MissingRequest | NoInflight | Mismatch(expected: nat, got: nat) | NotTrue | Unsupported | Unresolved

  datatype State = State(nextCallId: nat, pending: seq<nat>, inflight: Option<nat>, done: bool)

  const FRESH := State(0, [], None, false)

  function Begin(s: State): State {
    var id := SaturatingAdd(s.nextCallId, 1);
    State(id, s.pending + [id], Some(id), false)
  }

  function Drain(s: State): (State, Result<nat, Error>) {
    if s.pending == [] then (s, Err(MissingRequest)) else (s.(pending := s.pending[1..]), Ok(s.pending[0]))
  }

  function Complete(s: State, callId: nat, outcome: Payload): (State, Option<Error>) {
    if s.inflight.None? then (s, Some(NoInflight))
    else
      var taken := s.(inflight := None);
      if s.inflight.value != callId then (taken, Some(Mismatch(s.inflight.value, callId)))
      else if outcome == Success(Some(true)) then (taken.(done := true), None)
      else if outcome.Success? then (taken, Some(NotTrue))
      else (taken, Some(Unsupported))
  }

  /** `run_tool_roundtrip_native` on values. */
  function RoundTrip(s: State): (State, Option<Error>) {
    var begun := Begin(s);
    var drained := begun.(pending := begun.pending[1..]);
    var (after, e) := Complete(drained, begun.pending[0], Success(Some(true)));
    if e.Some? then (after, e)
    else (after, if after.done && after.pending == [] then None else Some(Unresolved))
  }

  class Runtime {
    var nextCallId: nat
    var pending: seq<nat>
    var inflight: Option<nat>
    var roundtripDone: bool

    function Contents(): State
      reads this
    {
      State(nextCallId, pending, inflight, roundtripDone)
    }

    constructor ()
      ensures Contents() == FRESH
    {
      nextCallId, pending, inflight, roundtripDone := 0, [], None, false;
    }

    method BeginRoundtrip()
      modifies this
      ensures Contents() == Begin(old(Contents()))
    {
      roundtripDone := false;
      nextCallId := SaturatingAdd(nextCallId, 1);
      var callId := nextCallId;
      inflight := Some(callId);
      pending := pending + [callId];
    }

    method DrainHostcallRequest() returns (r: Result<nat, Error>)
      modifies this
      ensures (Contents(), r) == Drain(old(Contents()))
    {
      if pending == [] { return Err(MissingRequest); }
      r := Ok(pending[0]);
      pending := pending[1..];
    }

    method CompleteHostcall(callId: nat, outcome: Payload) returns (e: Option<Error>)
      modifies this
      ensures (Contents(), e) == Complete(old(Contents()), callId, outcome)
    {
      if inflight.None? { return Some(NoInflight); }
      var expected := inflight.value;
      inflight := None;
      if expected != callId { return Some(Mismatch(expected, callId)); }
      match outcome {
        case Success(flag) =>
          if flag == Some(true) {
            roundtripDone := true;
            return None;
          }
          return Some(NotTrue);
        case OtherOutcome =>
          return Some(Unsupported);
      }
    }

    method AssertRoundtrip() returns (e: Option<Error>)
      ensures e == if roundtripDone && pending == [] then None else Some(Unresolved)
    {
      e := if roundtripDone && pending == [] then None else Some(Unresolved);
    }

    method RunToolRoundtrip() returns (e: Option<Error>)
      modifies this
      ensures (Contents(), e) == RoundTrip(old(Contents()))
    {
      BeginRoundtrip();
      var request := DrainHostcallRequest();
      e := CompleteHostcall(request.value, Success(Some(true)));
      if e.Some? { return; }
      e := AssertRoundtrip();
    }
  }

  /** What each answer to a completion means. It takes the call in flight, leaves the queue
      alone, and only success marks the round trip as done. */
  lemma CompletionMeans(s: State, callId: nat, outcome: Payload)
    ensures var (t, e) := Complete(s, callId, outcome);
      var ours := s.inflight == Some(callId);
      && (e == None <==> ours && outcome == Success(Some(true)))
      && (e == Some(NoInflight) <==> s.inflight == None)
      && (forall want, got :: e == Some(Mismatch(want, got)) <==>
            s.inflight == Some(want) && want != callId && got == callId)
      && (e == Some(NotTrue) <==> ours && (outcome == Success(None) || outcome == Success(Some(false))))
      && (e == Some(Unsupported) <==> ours && outcome == OtherOutcome)
      && t == State(s.nextCallId, s.pending, None, s.done || e == None)
  {
    if outcome.Success? && outcome.flag.Some? {
      if outcome.flag.value { assert outcome.flag == Some(true); } else { assert outcome.flag == Some(false); }
    }
  }

  // ---- runs of round trips ----

  /** The state after `n` round trips, whatever their outcomes. */
  function After(s: State, n: nat): State {
    if n == 0 then s else RoundTrip(After(s, n - 1)).0
  }

  /** The outcome of round trip `n`, counted from 0. */
  function OutcomeOf(s: State, n: nat): Option<Error> { RoundTrip(After(s, n)).1 }

  /** With nothing left over, every round trip succeeds, leaves nothing over, and uses
      call ids one up from the last until they saturate. */
  lemma {:induction false} RoundTripsSucceed(s: State, n: nat)
    requires s.pending == [] && s.nextCallId <= U64_MAX
    ensures OutcomeOf(s, n) == None && After(s, n).pending == []
    ensures After(s, n).nextCallId == if s.nextCallId + n <= U64_MAX then s.nextCallId + n else U64_MAX
  {
    if n > 0 { RoundTripsSucceed(s, n - 1); }
    var before := After(s, n);
    assert Begin(before).pending == [SaturatingAdd(before.nextCallId, 1)];
  }

  /** Pending ids were handed out earlier. */
  ghost predicate Issued(s: State) {
    s.nextCallId <= U64_MAX && forall i :: 0 <= i < |s.pending| ==> s.pending[i] <= s.nextCallId
  }

  lemma {:induction false} IssuedAlways(s: State, n: nat)
    requires Issued(s)
    ensures Issued(After(s, n)) && |After(s, n).pending| == |s.pending|
  {
    if n > 0 { IssuedAlways(s, n - 1); }
  }

  /** The calls a user of the runtime can make. */
  datatype Op = BeginOp | DrainOp | CompleteOp(callId: nat, outcome: Payload) | AssertOp

  function Apply(s: State, op: Op): State {
    match op
    case BeginOp => Begin(s)
    case DrainOp => Drain(s).0
    case CompleteOp(id, outcome) => Complete(s, id, outcome).0
    case AssertOp => s
  }

  function Run(ops: seq<Op>): State {
    if ops == [] then FRESH else Apply(Run(ops[..|ops| - 1]), ops[|ops| - 1])
  }

  /** In every reachable state the pending ids were handed out earlier. */
  lemma {:induction false} ReachableIssued(ops: seq<Op>)
    ensures Issued(Run(ops))
  {
    if ops != [] { ReachableIssued(ops[..|ops| - 1]); }
  }

  /** One undrained request poisons the runtime for good: from every reachable state
      with a request pending every later round trip fails and leaves the queue as long as
      it was. Until ids saturate the error is a mismatch between the new call and the
      oldest leftover. */
  lemma UndrainedPoisons(ops: seq<Op>, n: nat)
    requires Run(ops).pending != []
    ensures var s := Run(ops);
      && OutcomeOf(s, n).Some? && |After(s, n + 1).pending| == |s.pending| && After(s, n).pending != []
      && (After(s, n).nextCallId < U64_MAX ==>
            OutcomeOf(s, n) == Some(Mismatch(After(s, n).nextCallId + 1, After(s, n).pending[0])))
  {
    var s := Run(ops);
    ReachableIssued(ops);
    IssuedAlways(s, n);
    IssuedAlways(s, n + 1);
  }

  /** So a reachable runtime works exactly as long as nothing is left undrained. */
  lemma WorksIffDrained(ops: seq<Op>, n: nat)
    ensures OutcomeOf(Run(ops), n) == None <==> Run(ops).pending == []
  {
    ReachableIssued(ops);
    if Run(ops).pending == [] {
      RoundTripsSucceed(Run(ops), n);
    } else {
      UndrainedPoisons(ops, n);
    }
  }

  /** From every reachable state, beginning a round trip and not draining it leads to a poisoned one. */
  lemma BeginWithoutDrain(ops: seq<Op>)
    ensures Run(ops + [BeginOp]).pending == Run(ops).pending + [Run(ops + [BeginOp]).nextCallId]
  {
    assert (ops + [BeginOp])[..|ops|] == ops;
  }
}
