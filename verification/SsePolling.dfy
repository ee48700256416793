/** What a consumer that keeps polling an event stream is given: the events in order, an
    error where the bytes or the transport fail, and nothing after the end. */
module SsePolling {
  import opened Sse
  import opened SseCutting
  import opened SseStream
  import opened Wrappers

  // ---- what is still to come ----

  function Yields(events: seq<Event>): (r: seq<Polled>)
    ensures |r| == |events| && forall i :: 0 <= i < |r| ==> r[i] == Yield(events[i])
  {
    seq(|events|, i requires 0 <= i < |events| => Yield(events[i]))
  }

  /** At the end: an unfinished character is an error, else the last event is flushed. */
  function AtEnd(p: Parser, tail: string, cap: nat): seq<Polled> {
    if tail != "" then [Fail(IncompleteUtf8)]
    else
      var event := Flush(p, cap).1;
      if event.Some? then [Yield(event.value)] else []
  }

  /** What the transport's answers are turned into. A transport error is passed on and
      does not end the stream; malformed bytes do, after the events of their chunk. */
  function Upcoming(p: Parser, tail: string, answers: seq<Answer>, cap: nat): seq<Polled>
    decreases |answers|
  {
    if answers == [] then AtEnd(p, tail, cap)
    else
      match answers[0]
      case NotReady => Upcoming(p, tail, answers[1..], cap)
      case Broken(e) => [Fail(Io(e))] + Upcoming(p, tail, answers[1..], cap)
      case Bytes(bytes) =>
        var c := Process(p, tail + bytes, cap);
        Yields(c.events) + if c.failed then [Fail(InvalidUtf8)] else Upcoming(c.parser, c.tail, answers[1..], cap)
  }

  function Remaining(s: Streaming, cap: nat): seq<Polled> {
    Yields(s.pending)
    + (if s.error.Some? then [Fail(s.error.value)] else [])
    + (if s.terminated || (s.error.Some? && s.terminal) then [] else Upcoming(s.parser, s.tail, s.answers, cap))
  }

  /** Nothing more will come. */
  ghost predicate Finished(s: Streaming) { s.pending == [] && s.error.None? && s.terminated }

  /** One poll hands out the first thing still to come, or waits, or reports the end once
      there is nothing. */
  ghost predicate HandsOut(s: Streaming, t: Streaming, out: Polled, cap: nat) {
    match out
    case Pending => Remaining(t, cap) == Remaining(s, cap) && |t.answers| < |s.answers|
    case Done => Remaining(s, cap) == [] && Finished(t)
    case _ => Remaining(s, cap) == [out] + Remaining(t, cap) && |t.answers| <= |s.answers|
  }

  lemma YieldsHead(events: seq<Event>)
    requires events != []
    ensures Yields(events) == [Yield(events[0])] + Yields(events[1..])
  {
  }

  /** With nothing pending, what is to come is what the transport brings. */
  lemma RemainingIdle(s: Streaming, cap: nat)
    requires s.pending == [] && s.error.None? && !s.terminated
    ensures Remaining(s, cap) == Upcoming(s.parser, s.tail, s.answers, cap)
  {
  }

  lemma RemainingClosed(s: Streaming, cap: nat)
    requires s.pending == [] && s.error.None? && s.terminated
    ensures Remaining(s, cap) == []
  {
  }

  /** What comes after the events of a chunk. */
  function AfterChunkComes(c: Chunked, answers: seq<Answer>, cap: nat): seq<Polled> {
    if c.failed then [Fail(InvalidUtf8)] else Upcoming(c.parser, c.tail, answers, cap)
  }

  lemma UpcomingChunk(p: Parser, tail: string, answers: seq<Answer>, cap: nat)
    requires answers != [] && answers[0].Bytes?
    ensures var c := Process(p, tail + answers[0].bytes, cap);
      Upcoming(p, tail, answers, cap) == Yields(c.events) + AfterChunkComes(c, answers[1..], cap)
  {
    hide Process;
  }

  lemma RemainingFailing(s: Streaming, cap: nat)
    requires s.error.Some? && s.terminal
    ensures Remaining(s, cap) == Yields(s.pending) + [Fail(s.error.value)]
  {
    hide Upcoming;
  }

  lemma RemainingPending(s: Streaming, cap: nat)
    requires s.error.None? && !s.terminated
    ensures Remaining(s, cap) == Yields(s.pending) + Upcoming(s.parser, s.tail, s.answers, cap)
  {
    hide Upcoming;
  }

  /** A chunk that brings events or bad bytes. */
  lemma ChunkHandsOut(s: Streaming, cap: nat)
    requires s.pending == [] && s.error.None? && !s.terminated && s.answers != [] && s.answers[0].Bytes?
    requires var c := Process(s.parser, s.tail + s.answers[0].bytes, cap); c.failed || c.events != []
    ensures var (t, out) := PollTransport(s, cap); HandsOut(s, t, out, cap)
  {
    var (t, out) := PollTransport(s, cap);
    hide Process, Upcoming, Remaining, Yields;
    var c := Process(s.parser, s.tail + s.answers[0].bytes, cap);
    RemainingIdle(s, cap);
    UpcomingChunk(s.parser, s.tail, s.answers, cap);
    var rest := AfterChunkComes(c, s.answers[1..], cap);
    if c.events == [] {
      RemainingClosed(t, cap);
      NoYields();
      assert rest == [out] + [] && [] + rest == rest;
    } else {
      YieldsHead(c.events);
      if c.failed { RemainingFailing(t, cap); } else { RemainingPending(t, cap); }
      assert [out] + Yields(c.events[1..]) + rest == [out] + (Yields(c.events[1..]) + rest);
    }
  }

  lemma NoYields()
    ensures Yields([]) == []
  {
  }

  lemma {:induction false} TransportHandsOut(s: Streaming, cap: nat)
    requires s.pending == [] && s.error.None? && !s.terminated
    ensures var (t, out) := PollTransport(s, cap); HandsOut(s, t, out, cap)
    decreases |s.answers|
  {
    hide Process, Flush;
    if s.answers == [] {
      RemainingIdle(s, cap);
    } else if s.answers[0].Bytes? {
      var c := Process(s.parser, s.tail + s.answers[0].bytes, cap);
      if c.failed || c.events != [] {
        ChunkHandsOut(s, cap);
      } else {
        var next := s.(answers := s.answers[1..], parser := c.parser, tail := c.tail);
        RemainingIdle(s, cap);
        RemainingIdle(next, cap);
        assert Yields([]) == [];
        TransportHandsOut(next, cap);
      }
    } else {
      RemainingIdle(s, cap);
      RemainingIdle(s.(answers := s.answers[1..]), cap);
    }
  }

  /** Every poll, in whatever state, hands out the next thing still to come. */
  lemma PollHandsOut(s: Streaming, cap: nat)
    ensures var (t, out) := Poll(s, cap); HandsOut(s, t, out, cap)
  {
    hide PollTransport, Upcoming;
    if s.pending != [] {
      YieldsHead(s.pending);
    } else if s.error.None? && !s.terminated {
      TransportHandsOut(s, cap);
    }
  }

  // ---- polling on ----

  function AfterPolls(s: Streaming, n: nat, cap: nat): Streaming {
    if n == 0 then s else Poll(AfterPolls(s, n - 1, cap), cap).0
  }

  /** What `n` polls hand out, not counting the waits. */
  function HandedOut(s: Streaming, n: nat, cap: nat): seq<Polled> {
    if n == 0 then []
    else
      var out := Poll(AfterPolls(s, n - 1, cap), cap).1;
      HandedOut(s, n - 1, cap) + if out.Pending? || out.Done? then [] else [out]
  }

  /** However long one polls, what was handed out and what is still to come are the same list. */
  lemma {:induction false} PollsInOrder(s: Streaming, n: nat, cap: nat)
    ensures HandedOut(s, n, cap) + Remaining(AfterPolls(s, n, cap), cap) == Remaining(s, cap)
  {
    hide Poll, Remaining;
    if n == 0 {
      assert [] + Remaining(s, cap) == Remaining(s, cap);
    } else {
      PollsInOrder(s, n - 1, cap);
      var before := AfterPolls(s, n - 1, cap);
      var (t, out) := Poll(before, cap);
      PollHandsOut(before, cap);
      EndRemains(before, t, out, cap);
      var done := HandedOut(s, n - 1, cap);
      assert done + ([out] + Remaining(t, cap)) == done + [out] + Remaining(t, cap);
      assert done + [] == done;
    }
  }

  lemma EndRemains(s: Streaming, t: Streaming, out: Polled, cap: nat)
    requires HandsOut(s, t, out, cap)
    ensures out.Done? ==> Remaining(t, cap) == [] == Remaining(s, cap)
  {
    hide Upcoming;
  }

  /** A consumer that polls often enough is given everything and then the end, for good. */
  lemma PollsFinish(s: Streaming, n: nat, cap: nat)
    requires n >= |Remaining(s, cap)| + |s.answers|
    ensures HandedOut(s, n, cap) == Remaining(s, cap) && Poll(AfterPolls(s, n, cap), cap).1 == Done
  {
    hide Poll, Remaining;
    var t := AfterPolls(s, n, cap);
    PollsInOrder(s, n, cap);
    PollsSpend(s, n, cap);
    PollHandsOut(t, cap);
    StaysFinished(t, cap);
    assert Remaining(t, cap) == [];
    assert HandedOut(s, n, cap) + [] == HandedOut(s, n, cap);
  }

  /** Unless the end has been reported, every poll uses up an answer or hands something out. */
  lemma {:induction false} PollsSpend(s: Streaming, n: nat, cap: nat)
    ensures var t := AfterPolls(s, n, cap);
      |Remaining(t, cap)| + |t.answers| + n <= |Remaining(s, cap)| + |s.answers| || Finished(t)
  {
    hide Poll, Remaining;
    if n > 0 {
      PollsSpend(s, n - 1, cap);
      var before := AfterPolls(s, n - 1, cap);
      PollHandsOut(before, cap);
      StaysFinished(before, cap);
    }
  }

  lemma StaysFinished(s: Streaming, cap: nat)
    ensures Finished(s) ==> Poll(s, cap) == (s, Done) && Remaining(s, cap) == []
  {
    hide Upcoming, PollTransport;
  }

  // ---- the events of a stream ----

  function Answers(chunks: seq<string>): (r: seq<Answer>)
    ensures |r| == |chunks| && forall i :: 0 <= i < |r| ==> r[i] == Bytes(chunks[i])
  {
    seq(|chunks|, i requires 0 <= i < |chunks| => Bytes(chunks[i]))
  }

  /** A transport that brings chunks makes the stream hand out exactly the delivered
      events, then one error if the bytes are malformed, else the end of what they hold. */
  lemma {:induction false} ChunksAreDelivered(p: Parser, tail: string, chunks: seq<string>, cap: nat)
    ensures var all := ProcessAll(p, tail, chunks, cap);
      Upcoming(p, tail, Answers(chunks), cap)
      == Yields(Delivered(p, tail, chunks, cap))
         + if all.failed then [Fail(InvalidUtf8)] else AtEnd(all.parser, all.tail, cap)
    decreases |chunks|
  {
    hide Process, AtEnd;
    if chunks == [] {
      assert Yields([]) == [];
    } else {
      var c := Process(p, tail + chunks[0], cap);
      ChunksAreDelivered(c.parser, c.tail, chunks[1..], cap);
      assert Answers(chunks)[1..] == Answers(chunks[1..]);
      var later := Delivered(c.parser, c.tail, chunks[1..], cap);
      assert Yields(c.events + later) == Yields(c.events) + Yields(later);
    }
  }

  /** From a new stream to its consumer: polled often enough, a transport that brings
      `chunks` gives the delivered events, one error or the end of the text, and no more. */
  lemma StreamHandsOut(chunks: seq<string>, n: nat, cap: nat)
    requires n >= |Delivered(NEW_PARSER, "", chunks, cap)| + 1 + |chunks|
    ensures var s := Streaming(NEW_PARSER, "", [], None, false, false, Answers(chunks));
      var all := ProcessAll(NEW_PARSER, "", chunks, cap);
      && HandedOut(s, n, cap)
         == Yields(Delivered(NEW_PARSER, "", chunks, cap))
            + (if all.failed then [Fail(InvalidUtf8)] else AtEnd(all.parser, all.tail, cap))
      && Poll(AfterPolls(s, n, cap), cap).1 == Done
  {
    hide Poll, Remaining, Upcoming, HandedOut, AfterPolls, Delivered, ProcessAll;
    var s := Streaming(NEW_PARSER, "", [], None, false, false, Answers(chunks));
    RemainingIdle(s, cap);
    ChunksAreDelivered(NEW_PARSER, "", chunks, cap);
    PollsFinish(s, n, cap);
  }
}
