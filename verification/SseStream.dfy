/** The byte stream in front of the parser: chunks may end in the middle of a UTF-8
    character, whose bytes then wait in a second buffer. A poll hands out one event or
    error at a time; what the transport will answer to each of its own polls is a list. */
module SseStream {
  import opened Sse
  import opened SseParser
  import opened Wrappers

  // ---- UTF-8 ----

  /** How a non-empty byte string begins. */
  datatype Start = Complete(len: nat) | Partial | Bad(len: nat)

  predicate Continues(s: string, i: nat) { i < |s| && 0x80 <= s[i] as int <= 0xBF }

  /** The second byte of a three- or four-byte character. */
  predicate SecondOk(b0: int, b1: int) {
    if b0 == 0xE0 then 0xA0 <= b1 <= 0xBF
    else if b0 == 0xED then 0x80 <= b1 <= 0x9F
    else if b0 == 0xF0 then 0x90 <= b1 <= 0xBF
    else if b0 == 0xF4 then 0x80 <= b1 <= 0x8F
    else 0x80 <= b1 <= 0xBF
  }

  /** The first character, as `str::from_utf8` judges it. */
  function First(s: string): (r: Start)
    requires s != ""
    ensures r.Complete? ==> 0 < r.len <= |s|
    ensures r.Bad? ==> 0 < r.len <= |s|
  {
    var b0 := s[0] as int;
    if b0 < 0x80 then Complete(1)
    else if 0xC2 <= b0 <= 0xDF then
      if |s| < 2 then Partial else if Continues(s, 1) then Complete(2) else Bad(1)
    else if 0xE0 <= b0 <= 0xF4 then
      if |s| < 2 then Partial
      else if !SecondOk(b0, s[1] as int) then Bad(1)
      else if |s| < 3 then Partial
      else if !Continues(s, 2) then Bad(2)
      else if b0 <= 0xEF then Complete(3)
      else if |s| < 4 then Partial
      else if Continues(s, 3) then Complete(4) else Bad(3)
    else Bad(1)
  }

  /** `valid_up_to`: the length of the longest well-formed prefix. */
  function ValidUpTo(s: string): (k: nat)
    ensures k <= |s| && (k < |s| ==> !First(s[k..]).Complete?)
  {
    if s == "" || !First(s).Complete? then
      assert s[0..] == s;
      0
    else
      var n := First(s).len;
      assert forall k :: 0 <= k <= |s| - n ==> s[n..][k..] == s[n + k..];
      n + ValidUpTo(s[n..])
  }

  /** What is left after the well-formed prefix. */
  function Rest(s: string): string { s[ValidUpTo(s)..] }

  /** Nothing in `s` is wrong, though its last character may be unfinished. */
  ghost predicate Sound(s: string) { Rest(s) == "" || First(Rest(s)).Partial? }

  // ---- a chunk ----

  datatype Chunked = Chunked(parser: Parser, events: seq<Event>, tail: string, failed: bool)

  /** The well-formed pieces are fed; bad bytes are skipped; an unfinished character waits. */
  function Process(p: Parser, s: string, cap: nat): Chunked
    decreases |s|
  {
    var k := ValidUpTo(s);
    var fed := if k > 0 then Feed(p, s[..k], cap) else Fed(p, []);
    var rest := s[k..];
    if rest == "" || First(rest).Partial? then Chunked(fed.parser, fed.events, rest, false)
    else
      var more := Process(fed.parser, rest[First(rest).len..], cap);
      more.(events := fed.events + more.events, failed := true)
  }

  // ---- polling ----

  type IoError(!new, ==)

  /** One answer of the transport; after the last it reports the end. */
  datatype Answer = Bytes(bytes: string) | Broken(error: IoError) | NotReady

  datatype StreamError = InvalidUtf8 | IncompleteUtf8 | Io(error: IoError)

  /** One answer of the stream. */
  datatype Polled = Pending | Done | Yield(event: Event) | Fail(error: StreamError)

  datatype Streaming = Streaming(
    parser: Parser, tail: string, pending: seq<Event>, error: Option<StreamError>, terminal: bool,
    terminated: bool, answers: seq<Answer>)

  /** A stream that has failed for good. */
  function Closed(s: Streaming): Streaming {
    Streaming(NEW_PARSER, "", [], None, false, true, s.answers)
  }

  /** `poll_stream_end` */
  function PollEnd(s: Streaming, cap: nat): (Streaming, Polled) {
    if s.tail != "" then (Closed(s).(terminal := s.terminal), Fail(IncompleteUtf8))
    else
      var (parser, event) := Flush(s.parser, cap);
      (s.(parser := parser, terminated := true), if event.Some? then Yield(event.value) else Done)
  }

  /** The loop of `poll_next_event`, once nothing is pending. */
  function PollTransport(s: Streaming, cap: nat): (Streaming, Polled)
    decreases |s.answers|
  {
    if s.answers == [] then PollEnd(s, cap)
    else
      var rest := s.(answers := s.answers[1..]);
      match s.answers[0]
      case NotReady => (rest, Pending)
      case Broken(e) => (rest, Fail(Io(e)))
      case Bytes(bytes) =>
        var c := Process(s.parser, s.tail + bytes, cap);
        var next := rest.(parser := c.parser, tail := c.tail);
        if c.failed && c.events == [] then (Closed(next).(terminal := s.terminal), Fail(InvalidUtf8))
        else if c.failed then
          (next.(pending := c.events[1..], error := Some(InvalidUtf8), terminal := true), Yield(c.events[0]))
        else if c.events != [] then (next.(pending := c.events[1..]), Yield(c.events[0]))
        else PollTransport(next, cap)
  }

  /** `poll_next_event` */
  function Poll(s: Streaming, cap: nat): (Streaming, Polled) {
    if s.pending != [] then (s.(pending := s.pending[1..]), Yield(s.pending[0]))
    else if s.error.Some? then
      (if s.terminal then Closed(s) else s.(error := None), Fail(s.error.value))
    else if s.terminated then (s, Done)
    else PollTransport(s, cap)
  }

  class Stream {
    const parser: Parsing
    var utf8Buffer: string
    var pendingEvents: seq<Event>
    var pendingError: Option<StreamError>
    var errorIsTerminal: bool
    var terminated: bool
    var answers: seq<Answer>

    ghost function Contents(): Streaming
      reads this, parser
    {
      Streaming(parser.Model(), utf8Buffer, pendingEvents, pendingError, errorIsTerminal, terminated, answers)
    }

    ghost predicate Valid()
      reads this, parser
    {
      parser.Valid()
    }

    constructor (maxEventDataBytes: nat, transport: seq<Answer>)
      ensures Valid() && fresh(parser) && parser.cap == maxEventDataBytes
      ensures Contents() == Streaming(NEW_PARSER, "", [], None, false, false, transport)
    {
      parser := new Parsing(maxEventDataBytes);
      utf8Buffer, pendingEvents, pendingError, errorIsTerminal, terminated := "", [], None, false, false;
      answers := transport;
    }

    /** `poll_stream_end` */
    method PollStreamEnd() returns (out: Polled)
      requires Valid() && pendingEvents == [] && pendingError.None?
      modifies this, parser
      ensures Valid() && (Contents(), out) == PollEnd(old(Contents()), parser.cap)
    {
      if utf8Buffer != "" {
        utf8Buffer, pendingEvents, pendingError := "", [], None;
        parser.Restart();
        terminated := true;
        return Fail(IncompleteUtf8);
      }
      var event := parser.FlushPending();
      terminated := true;
      out := if event.Some? then Yield(event.value) else Done;
    }

    /** The loop over the transport's answers. */
    method PollLoop() returns (out: Polled)
      requires Valid() && pendingEvents == [] && pendingError.None?
      modifies this, parser
      ensures Valid() && (Contents(), out) == PollTransport(old(Contents()), parser.cap)
    {
      hide Process, Flush;
      ghost var whole := PollTransport(Contents(), parser.cap);
      while answers != []
        invariant Valid() && pendingEvents == [] && pendingError.None? && whole == PollTransport(Contents(), parser.cap)
        decreases |answers|
      {
        var answer := answers[0];
        answers := answers[1..];
        match answer {
          case NotReady => return Pending;
          case Broken(e) => return Fail(Io(e));
          case Bytes(bytes) =>
            var events, failed := ProcessChunk(bytes);
            if failed && events == [] {
              utf8Buffer := "";
              parser.Restart();
              terminated := true;
              return Fail(InvalidUtf8);
            }
            if failed {
              pendingEvents, pendingError, errorIsTerminal := events[1..], Some(InvalidUtf8), true;
              return Yield(events[0]);
            }
            if events != [] {
              pendingEvents := events[1..];
              return Yield(events[0]);
            }
        }
      }
      out := PollStreamEnd();
    }

    /** `poll_next_event` */
    method PollNextEvent() returns (out: Polled)
      requires Valid()
      modifies this, parser
      ensures Valid() && (Contents(), out) == Poll(old(Contents()), parser.cap)
    {
      hide PollTransport;
      if pendingEvents != [] {
        out := Yield(pendingEvents[0]);
        pendingEvents := pendingEvents[1..];
        return;
      }
      if pendingError.Some? {
        out := Fail(pendingError.value);
        pendingError := None;
        if errorIsTerminal {
          errorIsTerminal, utf8Buffer := false, "";
          parser.Restart();
          terminated := true;
        }
        return;
      }
      if terminated { return Done; }
      out := PollLoop();
    }

    /** `process_chunk_without_utf8_tail`: decodes the chunk itself. */
    method ProcessWithoutTail(bytes: string) returns (events: seq<Event>, failed: bool)
      requires Valid() && utf8Buffer == ""
      modifies this`utf8Buffer, parser
      ensures Valid()
      ensures Chunked(parser.Model(), events, utf8Buffer, failed) == Process(old(parser.Model()), bytes, parser.cap)
    {
      hide Process, Feed, ValidUpTo, First;
      var processed: nat := 0;
      events, failed := [], false;
      ghost var whole := Process(parser.Model(), bytes, parser.cap);
      assert bytes[0..] == bytes;
      while true
        invariant Valid() && processed <= |bytes| && utf8Buffer == ""
        invariant StillToCome(whole, events, failed, parser.Model(), bytes[processed..], parser.cap)
        decreases |bytes| - processed
      {
        Unfold(whole, events, failed, parser.Model(), bytes[processed..], parser.cap);
        var left := bytes[processed..];
        var k := ValidUpTo(left);
        if k > 0 {
          var more := parser.FeedText(left[..k]);
          events := events + more;
        }
        if k == |left| { return; }
        assert left[k..] == bytes[processed + k..];
        processed := processed + k;
        var start := First(bytes[processed..]);
        if start.Partial? {
          utf8Buffer := utf8Buffer + bytes[processed..];
          return;
        }
        assert bytes[processed..][start.len..] == bytes[processed + start.len..];
        processed := processed + start.len;
        failed := true;
      }
    }

    /** `process_chunk_with_utf8_tail`: decodes the waiting bytes and the chunk together. */
    method ProcessWithTail(bytes: string) returns (events: seq<Event>, failed: bool)
      requires Valid()
      modifies this`utf8Buffer, parser
      ensures Valid()
      ensures Chunked(parser.Model(), events, utf8Buffer, failed)
           == Process(old(parser.Model()), old(utf8Buffer) + bytes, parser.cap)
    {
      hide Process, Feed, ValidUpTo, First;
      utf8Buffer := utf8Buffer + bytes;
      var processed: nat := 0;
      events, failed := [], false;
      ghost var s := utf8Buffer;
      ghost var whole := Process(parser.Model(), s, parser.cap);
      assert s[0..] == s;
      while true
        invariant Valid() && processed <= |s| && utf8Buffer == s
        invariant StillToCome(whole, events, failed, parser.Model(), s[processed..], parser.cap)
        decreases |s| - processed
      {
        Unfold(whole, events, failed, parser.Model(), s[processed..], parser.cap);
        var left := utf8Buffer[processed..];
        var k := ValidUpTo(left);
        if k > 0 {
          var more := parser.FeedText(left[..k]);
          events := events + more;
        }
        if k == |left| {
          utf8Buffer := "";
          return;
        }
        assert left[k..] == s[processed + k..];
        processed := processed + k;
        var start := First(utf8Buffer[processed..]);
        if start.Partial? {
          utf8Buffer := utf8Buffer[processed..];
          return;
        }
        assert s[processed..][start.len..] == s[processed + start.len..];
        processed := processed + start.len;
        failed := true;
      }
    }

    /** `process_chunk` */
    method ProcessChunk(bytes: string) returns (events: seq<Event>, failed: bool)
      requires Valid()
      modifies this`utf8Buffer, parser
      ensures Valid()
      ensures Chunked(parser.Model(), events, utf8Buffer, failed)
           == Process(old(parser.Model()), old(utf8Buffer) + bytes, parser.cap)
    {
      if utf8Buffer == "" {
        assert "" + bytes == bytes;
        events, failed := ProcessWithoutTail(bytes);
      } else {
        events, failed := ProcessWithTail(bytes);
      }
    }
  }

  /** What is done and what is still to come from `s` make up the whole. */
  ghost predicate StillToCome(whole: Chunked, events: seq<Event>, failed: bool, p: Parser, s: string, cap: nat) {
    var c := Process(p, s, cap);
    whole == Chunked(c.parser, events + c.events, c.tail, failed || c.failed)
  }

  /** The text fed first from `s`. */
  function FeedPrefix(p: Parser, s: string, cap: nat): Fed {
    if ValidUpTo(s) > 0 then Feed(p, s[..ValidUpTo(s)], cap) else Fed(p, [])
  }

  lemma ProcessUnfolds(p: Parser, s: string, cap: nat)
    ensures Rest(s) == "" || First(Rest(s)).Partial? ==>
      var fed := FeedPrefix(p, s, cap);
      Process(p, s, cap) == Chunked(fed.parser, fed.events, Rest(s), false)
    ensures Rest(s) != "" && !First(Rest(s)).Partial? ==>
      var fed := FeedPrefix(p, s, cap);
      var more := Process(fed.parser, Rest(s)[First(Rest(s)).len..], cap);
      First(Rest(s)).Bad? && Process(p, s, cap) == Chunked(more.parser, fed.events + more.events, more.tail, true)
  {
    hide Feed, ValidUpTo, First;
  }

  lemma Unfold(whole: Chunked, events: seq<Event>, failed: bool, p: Parser, s: string, cap: nat)
    requires StillToCome(whole, events, failed, p, s, cap)
    ensures var fed, rest := FeedPrefix(p, s, cap), Rest(s);
      if rest == "" || First(rest).Partial? then whole == Chunked(fed.parser, events + fed.events, rest, failed)
      else First(rest).Bad? && StillToCome(whole, events + fed.events, true, fed.parser, rest[First(rest).len..], cap)
  {
    hide FeedPrefix, Rest, First, Process;
    ProcessUnfolds(p, s, cap);
    var fed, rest := FeedPrefix(p, s, cap), Rest(s);
    if rest != "" && !First(rest).Partial? {
      var more := Process(fed.parser, rest[First(rest).len..], cap);
      assert events + (fed.events + more.events) == events + fed.events + more.events;
    }
  }
}
