/** The Server-Sent Events parser of the streaming client, as functions of the text:
    lines are cut at LF, CR or CRLF, a blank line dispatches the event gathered so
    far, and an unfinished line waits in a buffer. A text is the sequence of its UTF-8
    bytes, one character per byte, so lengths are byte lengths. */
module Sse {
  import opened Integers
  import opened Wrappers

  datatype Event = Event(event: string, data: string, id: Option<string>, retry: Option<nat>)

  const DEFAULT_EVENT := Event("message", "", None, None)

  /** The event being gathered. */
  datatype Reading = Reading(current: Event, hasData: bool)

  const MAX_BUFFER_SIZE: nat := 10 * 1024 * 1024
  const BOM: string := ['\U{EF}', '\U{BB}', '\U{BF}']

  // ---- fields ----

  function IndexOf(s: string, c: char): Option<nat> {
    if s == [] then None
    else if s[0] == c then Some(0)
    else
      var i := IndexOf(s[1..], c);
      if i.None? then None else Some(i.value + 1)
  }

  lemma {:induction false} IndexOfBound(s: string, c: char)
    ensures IndexOf(s, c).Some? ==> IndexOf(s, c).value < |s|
  {
    if s != [] { IndexOfBound(s[1..], c); }
  }

  /** `append_data_line`: a line that would exceed the cap is dropped, but the event
      still counts as having data. */
  function AppendData(r: Reading, value: string, cap: nat): Reading {
    if |r.current.data| + |value| + 1 > cap then r.(hasData := true)
    else Reading(r.current.(data := r.current.data + value + "\n"), true)
  }

  function Decimal(digits: string): nat
    requires forall i :: 0 <= i < |digits| ==> '0' <= digits[i] <= '9'
  {
    if digits == [] then 0 else 10 * Decimal(digits[..|digits| - 1]) + (digits[|digits| - 1] as int - '0' as int)
  }

  function ParseRetry(value: string): Option<nat> {
    if value != [] && (forall i :: 0 <= i < |value| ==> '0' <= value[i] <= '9') && Decimal(value) <= U64_MAX
    then Some(Decimal(value)) else None
  }

  /** `process_line` */
  function ProcessLine(line: string, r: Reading, cap: nat): Reading {
    var colon := IndexOf(line, ':');
    IndexOfBound(line, ':');
    if colon == Some(0) then r
    else if colon.Some? then
      var field, raw := line[..colon.value], line[colon.value + 1..];
      var value := if raw != [] && raw[0] == ' ' then raw[1..] else raw;
      if field == "event" then r.(current := r.current.(event := value))
      else if field == "data" then AppendData(r, value, cap)
      else if field == "id" && '\0' !in value then r.(current := r.current.(id := Some(value)))
      else if field == "retry" then r.(current := r.current.(retry := ParseRetry(value)))
      else r
    else if line == "event" then r.(current := r.current.(event := ""))
    else if line == "data" then AppendData(r, "", cap)
    else if line == "id" then r.(current := r.current.(id := Some("")))
    else r
  }

  /** The event as dispatched: without the last newline, and never with an empty type. */
  function Finished(e: Event): Event {
    var data := if e.data != [] && e.data[|e.data| - 1] == '\n' then e.data[..|e.data| - 1] else e.data;
    e.(data := data, event := if e.event == "" then "message" else e.event)
  }

  function Emitted(r: Reading): seq<Event> { if r.hasData then [Finished(r.current)] else [] }

  /** A blank line: the id and the retry hint outlive the event. */
  function AfterBlank(r: Reading): Reading {
    Reading(r.current.(event := "message", data := ""), false)
  }

  // ---- lines ----

  predicate IsTerm(c: char) { c == '\r' || c == '\n' }

  /** `memchr2`: the first terminator at or after `from`, else the length. */
  function FindTerm(s: string, from: nat): (pos: nat)
    requires from <= |s|
    ensures from <= pos <= |s| && (forall i :: from <= i < pos ==> !IsTerm(s[i])) && (pos < |s| ==> IsTerm(s[pos]))
    decreases |s| - from
  {
    if from == |s| || IsTerm(s[from]) then from else FindTerm(s, from + 1)
  }

  /** The end of the first complete line and the start of the next. A CR that ends
      the text is not yet complete: an LF may follow. */
  function NextLine(s: string): (r: Option<(nat, nat)>)
    ensures r.Some? ==> r.value.0 < r.value.1 <= |s|
  {
    var pos := FindTerm(s, 0);
    if pos == |s| then None
    else if s[pos] == '\n' then Some((pos, pos + 1))
    else if pos + 1 == |s| then None
    else Some((pos, if s[pos + 1] == '\n' then pos + 2 else pos + 1))
  }

  datatype Drained = Drained(rest: string, reading: Reading, events: seq<Event>)

  function LineStep(line: string, r: Reading, cap: nat): (Reading, seq<Event>) {
    if line == "" then (AfterBlank(r), Emitted(r)) else (ProcessLine(line, r, cap), [])
  }

  /** Consumes every complete line. */
  function Drain(s: string, r: Reading, cap: nat): (d: Drained)
    ensures |d.rest| <= |s|
    decreases |s|
  {
    var line := NextLine(s);
    if line.None? then Drained(s, r, [])
    else
      var (reading, events) := LineStep(s[..line.value.0], r, cap);
      var d := Drain(s[line.value.1..], reading, cap);
      d.(events := events + d.events)
  }

  // ---- feeding ----

  datatype Parser = Parser(buffer: string, reading: Reading, bomChecked: bool)

  const NEW_PARSER := Parser("", Reading(DEFAULT_EVENT, false), false)

  const LIMIT_EVENT := DEFAULT_EVENT.(event := "error", data := "SSE buffer limit exceeded")

  function WithoutBom(s: string, checked: bool): string {
    if !checked && |s| >= 3 && s[..3] == BOM then s[3..] else s
  }

  /** What a feed leaves before the buffer limit is looked at. */
  function Consumed(p: Parser, text: string, cap: nat): Drained {
    Drain(WithoutBom(p.buffer + text, p.bomChecked), p.reading, cap)
  }

  predicate Overflows(p: Parser, text: string, cap: nat) {
    |Consumed(p, text, cap).rest| > MAX_BUFFER_SIZE
  }

  datatype Fed = Fed(parser: Parser, events: seq<Event>)

  /** `feed`, without any memory of what was scanned before. */
  function Feed(p: Parser, text: string, cap: nat): Fed {
    var d := Consumed(p, text, cap);
    if Overflows(p, text, cap) then Fed(NEW_PARSER, d.events + [LIMIT_EVENT])
    else Fed(Parser(d.rest, d.reading, p.bomChecked || p.buffer + text != ""), d.events)
  }

  /** What waits in the buffer is never a complete line, and only a parser that has
      seen text has something in its buffer. */
  ghost predicate Waiting(p: Parser) {
    NextLine(p.buffer).None? && (p.buffer != "" ==> p.bomChecked)
  }

  lemma {:induction false} DrainLeavesNoLine(s: string, r: Reading, cap: nat)
    ensures NextLine(Drain(s, r, cap).rest).None?
    decreases |s|
  {
    var line := NextLine(s);
    if line.Some? { DrainLeavesNoLine(s[line.value.1..], LineStep(s[..line.value.0], r, cap).0, cap); }
  }

  lemma FeedKeepsWaiting(p: Parser, text: string, cap: nat)
    requires Waiting(p)
    ensures Waiting(Feed(p, text, cap).parser)
  {
    DrainLeavesNoLine(WithoutBom(p.buffer + text, p.bomChecked), p.reading, cap);
  }

  // ---- chunking ----

  lemma FindTermExtends(a: string, b: string, from: nat)
    requires from <= |a|
    ensures FindTerm(a, from) < |a| ==> FindTerm(a + b, from) == FindTerm(a, from)
  {
    var pos, both := FindTerm(a, from), FindTerm(a + b, from);
    if pos < |a| {
      assert (a + b)[pos] == a[pos];
      assert forall i :: from <= i < pos ==> (a + b)[i] == a[i];
    }
  }

  /** A complete line stays the same line whatever follows it. */
  lemma NextLineExtends(a: string, b: string)
    requires NextLine(a).Some?
    ensures NextLine(a + b) == NextLine(a)
  {
    FindTermExtends(a, b, 0);
    var pos := FindTerm(a, 0);
    assert (a + b)[pos] == a[pos];
    if a[pos] == '\r' { assert (a + b)[pos + 1] == a[pos + 1]; }
  }

  /** Draining a text in two parts, with the unfinished line carried over, drains the whole. */
  lemma {:induction false} DrainSplits(a: string, b: string, r: Reading, cap: nat)
    ensures var first := Drain(a, r, cap);
      var second := Drain(first.rest + b, first.reading, cap);
      Drain(a + b, r, cap) == second.(events := first.events + second.events)
    decreases |a|
  {
    hide NextLine, LineStep, Drain;
    var line := NextLine(a);
    DrainUnfolds(a, r, cap);
    if line.Some? {
      NextLineExtends(a, b);
      DrainUnfolds(a + b, r, cap);
      var end, next := line.value.0, line.value.1;
      assert (a + b)[..end] == a[..end] && (a + b)[next..] == a[next..] + b;
      var (reading, events) := LineStep(a[..end], r, cap);
      DrainSplits(a[next..], b, reading, cap);
      var first := Drain(a[next..], reading, cap);
      var second := Drain(first.rest + b, first.reading, cap);
      assert events + (first.events + second.events) == events + first.events + second.events;
    } else {
      var second := Drain(a + b, r, cap);
      assert [] + second.events == second.events;
    }
  }

  lemma DrainUnfolds(s: string, r: Reading, cap: nat)
    ensures NextLine(s).None? ==> Drain(s, r, cap) == Drained(s, r, [])
    ensures NextLine(s).Some? ==>
      var (reading, events) := LineStep(s[..NextLine(s).value.0], r, cap);
      var d := Drain(s[NextLine(s).value.1..], reading, cap);
      Drain(s, r, cap) == d.(events := events + d.events)
  {
  }

  /** What waits is the end of the text. */
  lemma {:induction false} DrainSuffix(s: string, r: Reading, cap: nat)
    ensures var rest := Drain(s, r, cap).rest; rest == s[|s| - |rest|..]
    decreases |s|
  {
    hide NextLine, LineStep, Drain;
    DrainUnfolds(s, r, cap);
    var line := NextLine(s);
    if line.Some? { DrainSuffix(s[line.value.1..], LineStep(s[..line.value.0], r, cap).0, cap); }
  }

  /** After a complete line ending, at most one CR waits for its LF. */
  lemma LittleWaits(s: string, r: Reading, cap: nat)
    requires s == "" || s[|s| - 1] == '\n' || (|s| > 1 && s[|s| - 2] == s[|s| - 1] == '\r')
    ensures |Drain(s, r, cap).rest| <= 1
  {
    hide Drain;
    var rest := Drain(s, r, cap).rest;
    DrainSuffix(s, r, cap);
    DrainLeavesNoLine(s, r, cap);
    assert forall i :: 0 <= i < |rest| ==> rest[i] == s[|s| - |rest| + i];
  }

  /** What `&str` guarantees of a chunk: it does not end inside a byte order mark. */
  ghost predicate WholeBom(text: string) { text != BOM[..1] && text != BOM[..2] }

  lemma BomAtStart(p: Parser, a: string, b: string)
    requires Waiting(p) && WholeBom(a)
    ensures var s := WithoutBom(p.buffer + a, p.bomChecked);
      WithoutBom(p.buffer + (a + b), p.bomChecked)
      == if p.buffer + a == "" then WithoutBom(b, p.bomChecked) else s + b
  {
    assert p.buffer + (a + b) == p.buffer + a + b;
    assert p.buffer + a == "" ==> p.buffer + a + b == b;
    if !p.bomChecked {
      assert p.buffer == "";
      hide WithoutBom, NextLine;
      assert "" + a == a;
      if a != "" { BomThenMore(a, b); }
    }
  }

  lemma BomThenMore(a: string, b: string)
    requires WholeBom(a) && a != ""
    ensures WithoutBom(a + b, false) == WithoutBom(a, false) + b
  {
    if |a| >= 3 {
      assert (a + b)[..3] == a[..3];
      assert (a + b)[3..] == a[3..] + b;
    } else {
      assert |a + b| >= 3 ==> (a + b)[..3][..|a|] == a && BOM[..|a|] != a;
    }
  }

  /** Feeding two chunks is feeding them joined, unless the first leaves more
      unfinished text than the buffer may hold. */
  lemma FeedSplits(p: Parser, a: string, b: string, cap: nat)
    requires Waiting(p) && WholeBom(a) && !Overflows(p, a, cap)
    ensures var first := Feed(p, a, cap);
      var second := Feed(first.parser, b, cap);
      Feed(p, a + b, cap) == Fed(second.parser, first.events + second.events)
    ensures Overflows(p, a + b, cap) <==> Overflows(Feed(p, a, cap).parser, b, cap)
  {
    hide Drain, WithoutBom;
    BomAtStart(p, a, b);
    var first := Feed(p, a, cap);
    if p.buffer + a == "" {
      NothingToDrain(p, cap);
      assert first == Fed(p, []) && a + b == b;
    } else {
      var s := WithoutBom(p.buffer + a, p.bomChecked);
      DrainSplits(s, b, p.reading, cap);
      var d := Drain(s, p.reading, cap);
      var e := Drain(d.rest + b, d.reading, cap);
      OnceChecked(first.parser, b, cap);
      assert p.buffer + (a + b) != "";
      assert d.events + e.events + [LIMIT_EVENT] == d.events + (e.events + [LIMIT_EVENT]);
    }
  }

  lemma NothingToDrain(p: Parser, cap: nat)
    ensures Drain(WithoutBom("", p.bomChecked), p.reading, cap) == Drained("", p.reading, [])
  {
  }

  lemma OnceChecked(p: Parser, text: string, cap: nat)
    requires p.bomChecked
    ensures Consumed(p, text, cap) == Drain(p.buffer + text, p.reading, cap)
  {
  }

  /** Two feeds are one. */
  ghost predicate Joins(p: Parser, a: string, b: string, cap: nat) {
    var first := Feed(p, a, cap);
    var second := Feed(first.parser, b, cap);
    Feed(p, a + b, cap) == Fed(second.parser, first.events + second.events)
  }

  /** A continuation that ends no line and is not a byte order mark. */
  ghost predicate Probe(b: string) {
    b != "" && (forall i :: 0 <= i < |b| ==> !IsTerm(b[i])) && WithoutBom(b, false) == b && |b| <= MAX_BUFFER_SIZE
  }

  /** After an overflow any further piece of a line tells one feed from two: fed
      separately it waits in a fresh buffer. */
  lemma OverflowShows(p: Parser, a: string, b: string, cap: nat)
    requires Waiting(p) && WholeBom(a) && Overflows(p, a, cap) && Probe(b)
    ensures !Joins(p, a, b, cap)
  {
    var s := WithoutBom(p.buffer + a, p.bomChecked);
    var d := Drain(s, p.reading, cap);
    assert p.buffer + a != "" by { if p.buffer + a == "" { NothingToDrain(p, cap); } }
    BomAtStart(p, a, b);
    DrainSplits(s, b, p.reading, cap);
    DrainLeavesNoLine(s, p.reading, cap);
    RestGrows(d.rest, b, d.reading, cap);
    FreshFeed(b, cap);
    hide Drain, WithoutBom, NextLine;
    var e := Drain(d.rest + b, d.reading, cap);
    assert Consumed(p, a + b, cap).rest == e.rest && Consumed(p, a + b, cap).events == d.events + e.events;
    assert Feed(p, a, cap) == Fed(NEW_PARSER, d.events + [LIMIT_EVENT]);
    assert e.events == [] && d.events + [] == d.events;
  }

  lemma FreshFeed(b: string, cap: nat)
    requires Probe(b)
    ensures Feed(NEW_PARSER, b, cap) == Fed(Parser(b, Reading(DEFAULT_EVENT, false), true), [])
  {
    assert "" + b == b;
    NoTerm(b);
  }

  /** An overlong remainder either grows, or ends at its CR without dispatching. */
  lemma RestGrows(rest: string, b: string, r: Reading, cap: nat)
    requires NextLine(rest).None? && |rest| > 1 && Probe(b)
    ensures var d := Drain(rest + b, r, cap);
      d.events == [] && (|d.rest| > |rest| || d.rest == b)
  {
    WaitingLine(rest);
    var t := TrimCr(rest);
    if rest == t {
      assert forall i :: 0 <= i < |rest + b| ==> !IsTerm((rest + b)[i]);
      NoTerm(rest + b);
    } else {
      CrLine(t, b, r, cap);
      assert t + "\r" + b == rest + b;
      NoTerm(b);
    }
  }

  /** One line ended by a CR that no LF follows. */
  lemma CrLine(line: string, rest: string, r: Reading, cap: nat)
    requires forall i :: 0 <= i < |line| ==> !IsTerm(line[i])
    requires rest != "" && rest[0] != '\n'
    ensures var (reading, events) := LineStep(line, r, cap);
      var d := Drain(rest, reading, cap);
      Drain(line + "\r" + rest, r, cap) == d.(events := events + d.events)
  {
    var s := line + "\r" + rest;
    var pos := FindTerm(s, 0);
    assert s[|line|] == '\r' && s[|line| + 1] == rest[0];
    assert forall i :: 0 <= i < |line| ==> s[i] == line[i];
    assert pos == |line|;
    assert s[..pos] == line && s[pos + 1..] == rest;
  }

  /** Exactly when the cut after `a` cannot be seen, whatever comes next: when `a` does
      not overflow the buffer. */
  lemma JoinsIffNoOverflow(p: Parser, a: string, cap: nat)
    requires Waiting(p) && WholeBom(a)
    ensures !Overflows(p, a, cap) <==> forall b :: Joins(p, a, b, cap)
  {
    hide Feed, Overflows;
    if Overflows(p, a, cap) {
      OverflowShows(p, a, "x", cap);
    } else {
      forall b ensures Joins(p, a, b, cap) { FeedSplits(p, a, b, cap); }
    }
  }

  function FeedAll(p: Parser, chunks: seq<string>, cap: nat): Fed
    decreases |chunks|
  {
    if chunks == [] then Fed(p, [])
    else
      var first := Feed(p, chunks[0], cap);
      var rest := FeedAll(first.parser, chunks[1..], cap);
      Fed(rest.parser, first.events + rest.events)
  }

  function Concat(chunks: seq<string>): string {
    if chunks == [] then "" else chunks[0] + Concat(chunks[1..])
  }

  /** No chunk before a cut trips the buffer limit; after the last there is no cut. */
  ghost predicate Fits(p: Parser, chunks: seq<string>, cap: nat)
    decreases |chunks|
  {
    |chunks| > 1 ==>
      && WholeBom(chunks[0]) && !Overflows(p, chunks[0], cap)
      && Fits(Feed(p, chunks[0], cap).parser, chunks[1..], cap)
  }

  lemma FeedNothing(p: Parser, cap: nat)
    requires Waiting(p) && |p.buffer| <= MAX_BUFFER_SIZE
    ensures Feed(p, "", cap) == Fed(p, [])
  {
    assert p.buffer + "" == p.buffer;
  }

  /** Feeding any chunks is feeding their concatenation at once. */
  lemma {:induction false} FeedAllIsFeed(p: Parser, chunks: seq<string>, cap: nat)
    requires Waiting(p) && |p.buffer| <= MAX_BUFFER_SIZE && Fits(p, chunks, cap)
    ensures FeedAll(p, chunks, cap) == Feed(p, Concat(chunks), cap)
    decreases |chunks|
  {
    if chunks == [] {
      FeedNothing(p, cap);
    } else if |chunks| == 1 {
      FeedAllOne(p, chunks[0], cap);
      assert chunks == [chunks[0]] && Concat(chunks[1..]) == "" && chunks[0] + "" == chunks[0];
    } else {
      FeedKeepsWaiting(p, chunks[0], cap);
      FeedAllIsFeed(Feed(p, chunks[0], cap).parser, chunks[1..], cap);
      FeedSplits(p, chunks[0], Concat(chunks[1..]), cap);
    }
  }

  lemma FeedAllOne(p: Parser, text: string, cap: nat)
    ensures FeedAll(p, [text], cap) == Feed(p, text, cap)
  {
    assert [text][1..] == [];
    var fed := Feed(p, text, cap);
    assert FeedAll(fed.parser, [], cap) == Fed(fed.parser, []);
    assert fed.events + [] == fed.events;
  }

  /** The chunking invariant: however a stream is cut, the events and the parser's
      final state are the same. */
  lemma ChunkingInvariant(p: Parser, a: seq<string>, b: seq<string>, cap: nat)
    requires Waiting(p) && |p.buffer| <= MAX_BUFFER_SIZE && Concat(a) == Concat(b) && Fits(p, a, cap) && Fits(p, b, cap)
    ensures FeedAll(p, a, cap) == FeedAll(p, b, cap)
  {
    FeedAllIsFeed(p, a, cap);
    FeedAllIsFeed(p, b, cap);
  }

  /** A stream that is not longer than the buffer fits, however it is cut. */
  lemma {:induction false} ShortStreamsFit(p: Parser, chunks: seq<string>, cap: nat)
    requires Waiting(p) && |p.buffer| + |Concat(chunks)| <= MAX_BUFFER_SIZE
    requires forall i :: 0 <= i < |chunks| ==> WholeBom(chunks[i])
    ensures Fits(p, chunks, cap)
    decreases |chunks|
  {
    if chunks != [] {
      FeedKeepsWaiting(p, chunks[0], cap);
      assert |WithoutBom(p.buffer + chunks[0], p.bomChecked)| <= |p.buffer| + |chunks[0]|;
      ShortStreamsFit(Feed(p, chunks[0], cap).parser, chunks[1..], cap);
    }
  }

  /** Beyond the limit chunking shows: an overlong line is ignored when its end comes in
      the same chunk, and reported as an error when it comes in the next. */
  lemma LimitDependsOnChunks(cap: nat)
    ensures var long := seq(MAX_BUFFER_SIZE + 1, _ => 'x');
      && FeedAll(NEW_PARSER, [long + "\n"], cap).events == []
      && FeedAll(NEW_PARSER, [long, "\n"], cap).events == [LIMIT_EVENT]
  {
    var long := seq(MAX_BUFFER_SIZE + 1, _ => 'x');
    assert forall i :: 0 <= i < |long| ==> long[i] == 'x';
    LongLineIgnored(long, cap);
    LongLineReported(long, cap);
    FeedAllOne(NEW_PARSER, long + "\n", cap);
    FeedAllOne(NEW_PARSER, "\n", cap);
    assert [long, "\n"][1..] == ["\n"];
  }

  lemma UnknownField(line: string, r: Reading, cap: nat)
    requires |line| > 5 && forall i :: 0 <= i < |line| ==> line[i] != ':'
    ensures ProcessLine(line, r, cap) == r
  {
    NoColon(line);
  }

  lemma LongLineIgnored(long: string, cap: nat)
    requires |long| > 5 && forall i :: 0 <= i < |long| ==> long[i] == 'x'
    ensures Feed(NEW_PARSER, long + "\n", cap).events == [] && Feed(NEW_PARSER, "\n", cap).events == []
  {
    hide ProcessLine, Drain;
    var r := Reading(DEFAULT_EVENT, false);
    UnknownField(long, r, cap);
    PlainLine(long, "", r, cap);
    assert long + "\n" + "" == long + "\n" == "" + (long + "\n");
    assert (long + "\n")[..3][0] == 'x';
    NothingToDrain(Parser("", r, true), cap);
    OneBlank(r, cap);
    assert "" + "\n" == "\n";
  }

  lemma LongLineReported(long: string, cap: nat)
    requires |long| == MAX_BUFFER_SIZE + 1 && forall i :: 0 <= i < |long| ==> long[i] == 'x'
    ensures Feed(NEW_PARSER, long, cap) == Fed(NEW_PARSER, [LIMIT_EVENT])
  {
    NoTerm(long);
    assert "" + long == long;
    assert long[..3][0] == 'x';
    assert [] + [LIMIT_EVENT] == [LIMIT_EVENT];
  }

  lemma NoTerm(s: string)
    requires forall i :: 0 <= i < |s| ==> !IsTerm(s[i])
    ensures NextLine(s).None? && FindTerm(s, 0) == |s|
  {
  }

  lemma {:induction false} NoColon(s: string)
    requires forall i :: 0 <= i < |s| ==> s[i] != ':'
    ensures IndexOf(s, ':') == None
  {
    if s != [] { NoColon(s[1..]); }
  }

  /** One line ended by LF, whatever comes after. */
  lemma PlainLine(line: string, rest: string, r: Reading, cap: nat)
    requires forall i :: 0 <= i < |line| ==> !IsTerm(line[i])
    ensures var (reading, events) := LineStep(line, r, cap);
      var d := Drain(rest, reading, cap);
      Drain(line + "\n" + rest, r, cap) == d.(events := events + d.events)
  {
    var s := line + "\n" + rest;
    var pos := FindTerm(s, 0);
    assert s[|line|] == '\n';
    assert forall i :: 0 <= i < |line| ==> s[i] == line[i];
    assert pos == |line|;
    assert s[..pos] == line && s[pos + 1..] == rest;
  }

  // ---- the end of the stream ----

  /** `trim_end_matches('\r')` */
  function TrimCr(s: string): string {
    if s != [] && s[|s| - 1] == '\r' then TrimCr(s[..|s| - 1]) else s
  }

  /** `flush` */
  function Flush(p: Parser, cap: nat): (Parser, Option<Event>) {
    var r := if p.buffer == "" then p.reading else ProcessLine(TrimCr(p.buffer), p.reading, cap);
    if r.hasData then (Parser("", Reading(DEFAULT_EVENT, false), p.bomChecked), Some(Finished(r.current)))
    else (Parser("", r, p.bomChecked), None)
  }

  lemma EmptyLineNeutral(r: Reading, cap: nat)
    ensures ProcessLine("", r, cap) == r
  {
  }

  /** The unfinished line, without its CR if it has one. */
  lemma WaitingLine(s: string)
    requires NextLine(s).None?
    ensures forall i :: 0 <= i < |TrimCr(s)| ==> !IsTerm(TrimCr(s)[i])
    ensures s == TrimCr(s) || s == TrimCr(s) + "\r"
  {
    var pos := FindTerm(s, 0);
    if pos == |s| {
      NothingToTrim(s);
    } else {
      var t := s[..pos];
      assert pos == |s| - 1 && s[pos] == '\r' && s == t + "\r";
      assert forall i :: 0 <= i < |t| ==> t[i] == s[i];
      NothingToTrim(t);
      assert TrimCr(s) == TrimCr(t);
    }
  }

  lemma NothingToTrim(t: string)
    requires forall i :: 0 <= i < |t| ==> !IsTerm(t[i])
    ensures TrimCr(t) == t
  {
  }

  /** Flushing emits exactly what two more newlines would have. */
  lemma FlushIsTwoNewlines(p: Parser, cap: nat)
    requires Waiting(p)
    ensures !Overflows(p, "\n\n", cap)
    ensures Feed(p, "\n\n", cap).events == match Flush(p, cap).1 { case None => [] case Some(e) => [e] }
  {
    hide Drain, ProcessLine;
    var t := TrimCr(p.buffer);
    WaitingLine(p.buffer);
    EmptyLineNeutral(p.reading, cap);
    TwoBlanks(p.reading, cap);
    var s := p.buffer + "\n\n";
    assert WithoutBom(s, p.bomChecked) == s by {
      if p.buffer == "" { assert s[0] == '\n'; }
    }
    if p.buffer == t {
      PlainLine(t, "\n", p.reading, cap);
      assert t + "\n" + "\n" == s;
      if t != "" { OneBlank(ProcessLine(t, p.reading, cap), cap); }
    } else {
      CrLfLine(t, "\n", p.reading, cap);
      assert t + "\r\n" + "\n" == s;
      OneBlank(LineStep(t, p.reading, cap).0, cap);
    }
  }

  /** A flushed parser has nothing more to say; after an event it is as new, but for the
      byte order mark. */
  lemma FlushedIsDone(p: Parser, cap: nat)
    ensures var (q, event) := Flush(p, cap);
      && q.buffer == "" && Flush(q, cap) == (q, None)
      && (event.Some? ==> q == NEW_PARSER.(bomChecked := p.bomChecked))
  {
    hide ProcessLine;
  }

  lemma OneBlank(r: Reading, cap: nat)
    ensures Drain("\n", r, cap) == Drained("", AfterBlank(r), Emitted(r))
  {
    PlainLine("", "", r, cap);
    assert "" + "\n" + "" == "\n";
    assert Drain("", AfterBlank(r), cap) == Drained("", AfterBlank(r), []);
  }

  lemma TwoBlanks(r: Reading, cap: nat)
    ensures Drain("\n", AfterBlank(r), cap).events == [] && Drain("\n", AfterBlank(r), cap).rest == ""
  {
    OneBlank(AfterBlank(r), cap);
  }

  lemma CrLfLine(line: string, rest: string, r: Reading, cap: nat)
    requires forall i :: 0 <= i < |line| ==> !IsTerm(line[i])
    ensures var (reading, events) := LineStep(line, r, cap);
      var d := Drain(rest, reading, cap);
      Drain(line + "\r\n" + rest, r, cap) == d.(events := events + d.events)
  {
    var s := line + "\r\n" + rest;
    var pos := FindTerm(s, 0);
    assert s[|line|] == '\r' && s[|line| + 1] == '\n';
    assert forall i :: 0 <= i < |line| ==> s[i] == line[i];
    assert pos == |line|;
    assert s[..pos] == line && s[pos + 2..] == rest;
  }

  // ---- the data cap ----

  ghost predicate Capped(r: Reading, cap: nat) { |r.current.data| <= cap }

  lemma {:induction false} DrainCapped(s: string, r: Reading, cap: nat)
    requires Capped(r, cap)
    ensures Capped(Drain(s, r, cap).reading, cap)
    ensures forall i :: 0 <= i < |Drain(s, r, cap).events| ==> |Drain(s, r, cap).events[i].data| <= cap
    decreases |s|
  {
    var line := NextLine(s);
    if line.Some? { DrainCapped(s[line.value.1..], LineStep(s[..line.value.0], r, cap).0, cap); }
  }

  /** No event is ever larger than the cap, however its data lines arrive and whether
      a blank line or the end of the stream dispatches it; the parser's own error aside. */
  lemma {:induction false} EventsCapped(p: Parser, chunks: seq<string>, cap: nat)
    requires Capped(p.reading, cap)
    ensures var fed := FeedAll(p, chunks, cap);
      && (forall i :: 0 <= i < |fed.events| ==> fed.events[i] == LIMIT_EVENT || |fed.events[i].data| <= cap)
      && Capped(fed.parser.reading, cap)
      && (Flush(fed.parser, cap).1.Some? ==> |Flush(fed.parser, cap).1.value.data| <= cap)
    decreases |chunks|
  {
    hide Drain;
    if chunks != [] {
      DrainCapped(WithoutBom(p.buffer + chunks[0], p.bomChecked), p.reading, cap);
      EventsCapped(Feed(p, chunks[0], cap).parser, chunks[1..], cap);
    }
  }
}
