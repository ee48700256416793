/** The pacing part of the stress harness's `run_loop`. Time is in whole nanoseconds.
    The clock is a parameter: each pass of the loop reads it on entry (`poll`), again
    as `now`, and, if an event was dispatched, once more afterwards (`after`); the
    readings never decrease. A finite list of passes is any prefix of any run, and a
    dispatch may take arbitrarily long. */
module Pacer {
  import opened Wrappers

  datatype Pass = Pass(poll: nat, now: nat, after: nat)

  /** Successive readings of a monotone clock, none before `start`. */
  ghost predicate Monotone(start: nat, passes: seq<Pass>) {
    && (forall i :: 0 <= i < |passes| ==> start <= passes[i].poll <= passes[i].now <= passes[i].after)
    && forall i, j :: 0 <= i < j < |passes| ==> passes[i].after <= passes[j].poll
  }

  /** `next_event_sleep_duration` */
  function SleepDuration(now: nat, nextEvent: nat, deadline: nat): (r: Option<nat>)
    ensures r.Some? <==> now <= nextEvent < deadline
    ensures r.Some? ==> now + r.value == nextEvent
  {
    if now >= deadline || nextEvent >= deadline then None
    else if nextEvent < now then None
    else Some(nextEvent - now)
  }

  /** One dispatched event: when it was due, when it was dispatched, when it was over. */
  datatype Dispatch = Dispatch(due: nat, at: nat, over: nat)

  /** The schedule after a dispatch: keep the beat, or start afresh if it was missed. */
  function NextDue(d: Dispatch, interval: nat): nat {
    if d.due + interval < d.over then d.over + interval else d.due + interval
  }

  /** What the loop does to the schedule, event by event. */
  ghost predicate Paced(start: nat, interval: nat, deadline: nat, events: seq<Dispatch>) {
    && (events != [] ==> events[0].due == start)
    && (forall k :: 0 <= k < |events| ==> start <= events[k].due <= events[k].at <= events[k].over)
    && (forall k :: 0 <= k < |events| - 1 ==> events[k + 1].due == NextDue(events[k], interval))
    && forall k :: 0 <= k < |events| - 1 ==> events[k].over < deadline
  }

  /** The events dispatched from passes on, the next being due at `next`. */
  function Loop(passes: seq<Pass>, next: nat, interval: nat, deadline: nat): seq<Dispatch> {
    if passes == [] || passes[0].poll >= deadline then []
    else if passes[0].now < next then
      if SleepDuration(passes[0].now, next, deadline).None? then [] else Loop(passes[1..], next, interval, deadline)
    else
      var event := Dispatch(next, passes[0].now, passes[0].after);
      [event] + Loop(passes[1..], NextDue(event, interval), interval, deadline)
  }

  /** When the event after `events` is due, the first being due at `first`. */
  function DueAfter(events: seq<Dispatch>, first: nat, interval: nat): nat {
    if events == [] then first else NextDue(events[|events| - 1], interval)
  }

  /** Before the deadline no chance is missed: one more pass dispatches one more event
      exactly if that is due. */
  lemma {:induction false} ReadyPassDispatches(passes: seq<Pass>, p: Pass, next: nat, interval: nat, deadline: nat)
    requires forall i :: 0 <= i < |passes| ==> passes[i].poll <= passes[i].now < deadline
    requires p.poll <= p.now < deadline
    ensures var events := Loop(passes, next, interval, deadline);
      var due := DueAfter(events, next, interval);
      Loop(passes + [p], next, interval, deadline)
      == if p.now < due then events else events + [Dispatch(due, p.now, p.after)]
    decreases |passes|
  {
    var all := passes + [p];
    if passes == [] {
      assert all[0] == p && all[1..] == [];
      assert Loop(all[1..], next, interval, deadline) == [];
    } else {
      assert all[0] == passes[0] && all[1..] == passes[1..] + [p];
      if passes[0].now < next {
        ReadyPassDispatches(passes[1..], p, next, interval, deadline);
      } else {
        var event := Dispatch(next, passes[0].now, passes[0].after);
        ReadyPassDispatches(passes[1..], p, NextDue(event, interval), interval, deadline);
        var rest := Loop(passes[1..], NextDue(event, interval), interval, deadline);
        assert rest == [] ==> [event] + rest == [event];
        assert ([event] + rest)[|rest|] == if rest == [] then event else rest[|rest| - 1];
      }
    }
  }

  /** `run_loop`: the events dispatched during the given passes of a monotone clock. */
  method RunLoop(start: nat, interval: nat, duration: nat, passes: seq<Pass>) returns (events: seq<Dispatch>)
    requires Monotone(start, passes)
    ensures events == Loop(passes, start, interval, start + duration)
    ensures Paced(start, interval, start + duration, events)
    ensures duration == 0 ==> events == []
  {
    LoopPaced(passes, start, interval, start + duration);
    NothingInNoTime(passes, start, interval);
    events := DispatchEvents(start, interval, start + duration, passes);
  }

  /** The loop itself, which asks nothing of the clock. */
  method DispatchEvents(start: nat, interval: nat, deadline: nat, passes: seq<Pass>) returns (events: seq<Dispatch>)
    ensures events == Loop(passes, start, interval, deadline)
  {
    var nextEvent: nat := start;
    events := [];
    var left := passes;
    ghost var whole := Loop(passes, start, interval, deadline);
    StartsWhole(whole, passes, start, interval, deadline);
    hide *;
    while left != []
      invariant StillToCome(whole, events, left, nextEvent, interval, deadline)
      decreases |left|
    {
      LoopStep(whole, events, left, nextEvent, interval, deadline);
      var pass := left[0];
      left := left[1..];
      if pass.poll >= deadline { return; }
      if pass.now < nextEvent {
        var delay := SleepDuration(pass.now, nextEvent, deadline);
        if delay.None? { return; }
        continue;
      }
      var event := Dispatch(nextEvent, pass.now, pass.after);
      events := events + [event];
      NextDueIs(event, interval);
      nextEvent := nextEvent + interval;
      if nextEvent < pass.after {
        nextEvent := pass.after + interval;
      }
    }
    NoPasses(whole, events, left, nextEvent, interval, deadline);
  }

  lemma NextDueIs(d: Dispatch, interval: nat)
    ensures NextDue(d, interval) == if d.due + interval < d.over then d.over + interval else d.due + interval
  {
  }

  /** The events so far and those of the passes left are the whole. */
  ghost predicate StillToCome(
    whole: seq<Dispatch>, events: seq<Dispatch>, passes: seq<Pass>, next: nat, interval: nat, deadline: nat)
  {
    whole == events + Loop(passes, next, interval, deadline)
  }

  lemma StartsWhole(whole: seq<Dispatch>, passes: seq<Pass>, next: nat, interval: nat, deadline: nat)
    requires whole == Loop(passes, next, interval, deadline)
    ensures StillToCome(whole, [], passes, next, interval, deadline)
  {
    assert [] + whole == whole;
  }

  lemma NoPasses(
    whole: seq<Dispatch>, events: seq<Dispatch>, passes: seq<Pass>, next: nat, interval: nat, deadline: nat)
    requires passes == [] && StillToCome(whole, events, passes, next, interval, deadline)
    ensures whole == events
  {
    assert events + [] == events;
  }

  lemma NothingInNoTime(passes: seq<Pass>, start: nat, interval: nat)
    requires Monotone(start, passes)
    ensures Loop(passes, start, interval, start) == []
  {
  }

  /** One pass, with the events so far in front. */
  lemma LoopStep(
    whole: seq<Dispatch>, events: seq<Dispatch>, passes: seq<Pass>, next: nat, interval: nat, deadline: nat)
    requires passes != [] && StillToCome(whole, events, passes, next, interval, deadline)
    ensures var first := passes[0];
      var event := Dispatch(next, first.now, first.after);
      if first.poll >= deadline then whole == events
      else if first.now >= next then
        StillToCome(whole, events + [event], passes[1..], NextDue(event, interval), interval, deadline)
      else if SleepDuration(first.now, next, deadline).None? then whole == events
      else StillToCome(whole, events, passes[1..], next, interval, deadline)
  {
    var event := Dispatch(next, passes[0].now, passes[0].after);
    var later := Loop(passes[1..], NextDue(event, interval), interval, deadline);
    assert events + [] == events && events + ([event] + later) == events + [event] + later;
  }

  /** What the loop dispatches keeps to the schedule. */
  lemma {:induction false} LoopPaced(passes: seq<Pass>, next: nat, interval: nat, deadline: nat)
    requires Monotone(0, passes)
    ensures Paced(next, interval, deadline, Loop(passes, next, interval, deadline))
  {
    if passes != [] {
      var rest := passes[1..];
      assert Monotone(0, rest);
      LoopPaced(rest, next, interval, deadline);
      if passes[0].poll < deadline && passes[0].now >= next {
        var event := Dispatch(next, passes[0].now, passes[0].after);
        var due := NextDue(event, interval);
        var later := Loop(rest, due, interval, deadline);
        LoopPaced(rest, due, interval, deadline);
        assert later != [] ==> rest != [] && rest[0].poll < deadline && event.over <= rest[0].poll;
        PacedPrepend(event, interval, deadline, later);
      }
    }
  }

  lemma PacedPrepend(d: Dispatch, interval: nat, deadline: nat, later: seq<Dispatch>)
    requires d.due <= d.at <= d.over && Paced(NextDue(d, interval), interval, deadline, later)
    requires later != [] ==> d.over < deadline
    ensures Paced(d.due, interval, deadline, [d] + later)
  {
    var all := [d] + later;
    forall k | 0 <= k < |all| - 1 ensures all[k + 1].due == NextDue(all[k], interval) && all[k].over < deadline {
      if k > 0 { assert all[k] == later[k - 1] && all[k + 1] == later[k]; }
    }
  }

  // ---- what pacing guarantees ----

  lemma MulStep(k: nat, interval: nat)
    ensures (k + 1) * interval == k * interval + interval
  {
  }

  /** The schedule advances by at least one interval per event. */
  lemma {:induction false} DueAdvances(start: nat, interval: nat, deadline: nat, events: seq<Dispatch>, k: nat, j: nat)
    requires Paced(start, interval, deadline, events) && k + j < |events|
    ensures events[k + j].due >= events[k].due + j * interval
    decreases j
  {
    if j > 0 {
      DueAdvances(start, interval, deadline, events, k, j - 1);
      MulStep(j - 1, interval);
      assert events[(k + j - 1) + 1].due == NextDue(events[k + j - 1], interval);
    }
  }

  /** Event `k`, counted from 0, is never dispatched before its nominal time. */
  lemma NeverEarly(start: nat, interval: nat, deadline: nat, events: seq<Dispatch>, k: nat)
    requires Paced(start, interval, deadline, events) && k < |events|
    ensures events[k].at >= start + k * interval
  {
    DueAdvances(start, interval, deadline, events, 0, k);
  }

  /** No burst: from any event on, however late it ran, the events after the next one
      are at least an interval apart on the schedule, so `j` further dispatches take
      at least `j - 1` intervals from the end of that event. */
  lemma NoBurst(start: nat, interval: nat, deadline: nat, events: seq<Dispatch>, k: nat, j: nat)
    requires Paced(start, interval, deadline, events) && 1 <= j && k + j < |events|
    ensures events[k + j].at >= events[k].over + (j - 1) * interval
  {
    assert events[k + 1].due == NextDue(events[k], interval);
    DueAdvances(start, interval, deadline, events, k + 1, j - 1);
  }

  /** A stall longer than an interval shifts the schedule: the next event waits a full interval. */
  lemma StallShifts(start: nat, interval: nat, deadline: nat, events: seq<Dispatch>, k: nat, j: nat)
    requires Paced(start, interval, deadline, events) && 1 <= j && k + j < |events|
    requires events[k].over > events[k].due + interval
    ensures events[k + j].at >= events[k].over + j * interval
  {
    assert events[k + 1].due == NextDue(events[k], interval);
    DueAdvances(start, interval, deadline, events, k + 1, j - 1);
    MulStep(j - 1, interval);
  }

  function CeilDiv(a: nat, b: nat): nat
    requires b > 0
  {
    (a + b - 1) / b
  }

  lemma BelowCeil(n: nat, a: nat, b: nat)
    requires b > 0 && n * b < a
    ensures n < CeilDiv(a, b)
  {
    var q := CeilDiv(a, b);
    assert q * b >= a;
    if q <= n { MulMonotone(q, n, b); }
  }

  lemma MulMonotone(a: nat, b: nat, m: nat)
    requires a <= b
    ensures a * m <= b * m
  {
  }

  /** At most one event more than the duration has intervals, rounded up. */
  lemma EventsBounded(start: nat, interval: nat, duration: nat, events: seq<Dispatch>)
    requires interval > 0 && Paced(start, interval, start + duration, events)
    ensures |events| <= CeilDiv(duration, interval) + 1
  {
    if |events| >= 2 {
      var k := |events| - 2;
      NeverEarly(start, interval, start + duration, events, k);
      BelowCeil(k, duration, interval);
    }
  }

  /** The extra event does happen: the loop polls just before the deadline and reads the
      clock at it. */
  lemma BoundIsTight(start: nat, interval: nat)
    requires interval > 0
    ensures var passes := [Pass(start, start, start), Pass(start + interval - 1, start + interval, start + interval)];
      Monotone(start, passes)
      && |Loop(passes, start, interval, start + interval)| == CeilDiv(interval, interval) + 1
  {
    var deadline := start + interval;
    var passes := [Pass(start, start, start), Pass(deadline - 1, deadline, deadline)];
    assert passes[1..] == [Pass(deadline - 1, deadline, deadline)] && passes[1..][1..] == [];
    assert |Loop(passes[1..], deadline, interval, deadline)| == 1;
    assert (interval + interval - 1) / interval == 1;
  }
}
