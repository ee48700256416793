/** The incremental parser object: it remembers how much of its buffer was already
    scanned for line ends and never scans it again, and it avoids the buffer when
    nothing waits in it. Every feed is proved to equal `Sse.Feed`, which starts from scratch. */
module SseParser {
  import opened Sse
  import opened Wrappers

  class Parsing {
    var buffer: string
    var current: Event
    var hasData: bool
    var bomChecked: bool
    var scannedLen: nat
    const cap: nat

    function Model(): Parser
      reads this
    {
      Parser(buffer, Reading(current, hasData), bomChecked)
    }

    ghost predicate Valid()
      reads this
    {
      Waiting(Model()) && (buffer != "" ==> scannedLen == |buffer|) && |buffer| <= MAX_BUFFER_SIZE
    }

    constructor (maxEventDataBytes: nat)
      ensures Valid() && Model() == NEW_PARSER && cap == maxEventDataBytes
    {
      buffer, current, hasData, bomChecked, scannedLen := "", DEFAULT_EVENT, false, false, 0;
      cap := maxEventDataBytes;
    }

    method AppendDataLine(value: string)
      modifies this`current, this`hasData
      ensures Reading(current, hasData) == AppendData(old(Reading(current, hasData)), value, cap)
    {
      var projectedLen := |current.data| + |value| + 1;
      hasData := true;
      if projectedLen > cap { return; }
      current := current.(data := current.data + value + "\n");
    }

    method ProcessOneLine(line: string)
      modifies this`current, this`hasData
      ensures Reading(current, hasData) == ProcessLine(line, old(Reading(current, hasData)), cap)
    {
      var colon := IndexOf(line, ':');
      IndexOfBound(line, ':');
      if colon == Some(0) { return; }
      if colon.Some? {
        var field, value := line[..colon.value], line[colon.value + 1..];
        if value != "" && value[0] == ' ' { value := value[1..]; }
        if field == "event" {
          current := current.(event := value);
        } else if field == "data" {
          AppendDataLine(value);
        } else if field == "id" && '\0' !in value {
          current := current.(id := Some(value));
        } else if field == "retry" {
          current := current.(retry := ParseRetry(value));
        }
      } else if line == "event" {
        current := current.(event := "");
      } else if line == "data" {
        AppendDataLine("");
      } else if line == "id" {
        current := current.(id := Some(""));
      }
    }

    method EndOfEvent() returns (events: seq<Event>)
      modifies this`current, this`hasData
      ensures Reading(current, hasData) == AfterBlank(old(Reading(current, hasData)))
      ensures events == Emitted(old(Reading(current, hasData)))
    {
      events := [];
      if hasData {
        if current.data != "" && current.data[|current.data| - 1] == '\n' {
          current := current.(data := current.data[..|current.data| - 1]);
        }
        if current.event == "" { current := current.(event := "message"); }
        events := [current];
        current := Event("message", "", current.id, current.retry);
        hasData := false;
      } else {
        current := current.(event := "message", data := "");
      }
    }

    method TakeLine(line: string) returns (events: seq<Event>)
      modifies this`current, this`hasData
      ensures (Reading(current, hasData), events) == LineStep(line, old(Reading(current, hasData)), cap)
    {
      events := [];
      if line == "" {
        events := EndOfEvent();
      } else {
        ProcessOneLine(line);
      }
    }

    /** The loop of `process_source`, from a line that starts at `first` and is known to have no
        end before `scanned`. */
    method ProcessLines(source: string, first: nat, scanned: nat) returns (consumed: nat, events: seq<Event>)
      requires first <= scanned <= |source| && forall i :: first <= i < scanned ==> !IsTerm(source[i])
      modifies this`current, this`hasData
      ensures consumed <= |source|
      ensures Drained(source[consumed..], Reading(current, hasData), events)
           == Drain(source[first..], old(Reading(current, hasData)), cap)
    {
      hide Drain, LineStep, NextLine;
      var start, searchPos := first, scanned;
      events := [];
      ghost var whole := Drain(source[first..], Reading(current, hasData), cap);
      var pos := FindTerm(source, searchPos);
      AheadStart(source[first..], Reading(current, hasData), cap);
      while pos < |source| && (source[pos] == '\n' || pos + 1 < |source|)
        invariant 0 <= start <= searchPos <= pos <= |source| && pos == FindTerm(source, searchPos)
        invariant forall i :: start <= i < searchPos ==> !IsTerm(source[i])
        invariant Ahead(whole, events, source[start..], Reading(current, hasData), cap)
        decreases |source| - searchPos
      {
        var next := if source[pos] == '\r' && source[pos + 1] == '\n' then pos + 2 else pos + 1;
        var line := source[start..pos];
        LineAt(source, start, pos);
        AheadStep(whole, events, source[start..], Reading(current, hasData), cap);
        assert source[start..][..pos - start] == line && source[start..][next - start..] == source[next..];
        var more := TakeLine(line);
        events := events + more;
        start, searchPos := next, next;
        pos := FindTerm(source, searchPos);
      }
      LineAt(source, start, pos);
      AheadStep(whole, events, source[start..], Reading(current, hasData), cap);
      consumed := start;
    }

    /** `process_source`. Nothing before `scanStart` ends a line, so scanning starts there. */
    method ProcessSource(source: string, scanStart: nat) returns (consumed: nat, events: seq<Event>)
      requires scanStart <= |source| && forall i :: 0 <= i < scanStart ==> !IsTerm(source[i])
      modifies this`current, this`hasData, this`bomChecked
      ensures consumed <= |source| && bomChecked == (old(bomChecked) || source != "")
      ensures Drained(source[consumed..], Reading(current, hasData), events)
           == Drain(WithoutBom(source, old(bomChecked)), old(Reading(current, hasData)), cap)
    {
      hide Drain;
      var start, searchPos := 0, scanStart;
      if !bomChecked && source != "" {
        bomChecked := true;
        if |source| >= 3 && source[..3] == BOM {
          start := 3;
          if searchPos < 3 { searchPos := 3; }
        }
      }
      assert source[0..] == source;
      consumed, events := ProcessLines(source, start, searchPos);
    }

    /** `feed_into`: the events are those it hands to the callback, in order. */
    method FeedText(data: string) returns (events: seq<Event>)
      requires Valid()
      modifies this
      ensures Valid()
      ensures Fed(Model(), events) == Feed(old(Model()), data, cap)
    {
      hide Drain, ProcessLine;
      FeedKeepsWaiting(Model(), data, cap);
      var consumed;
      if buffer == "" {
        assert buffer + data == data;
        consumed, events := ProcessSource(data, 0);
        if consumed < |data| {
          buffer := data[consumed..];
          if |buffer| > MAX_BUFFER_SIZE {
            events := ResetAfterBufferLimit(events);
            return;
          }
        }
      } else {
        var combined := buffer + data;
        buffer := "";
        var scanStart := if scannedLen == 0 then 0 else scannedLen - 1;
        ScannedHasNoLine(old(buffer), data);
        consumed, events := ProcessSource(combined, scanStart);
        if consumed < |combined| { buffer := combined[consumed..]; }
        if |buffer| > MAX_BUFFER_SIZE {
          events := ResetAfterBufferLimit(events);
          return;
        }
      }
      scannedLen := |buffer|;
    }

    method ResetAfterBufferLimit(events: seq<Event>) returns (all: seq<Event>)
      modifies this
      ensures Model() == NEW_PARSER && scannedLen == 0 && all == events + [LIMIT_EVENT]
    {
      buffer, current, hasData, bomChecked, scannedLen := "", DEFAULT_EVENT, false, false, 0;
      all := events + [LIMIT_EVENT];
    }

    /** Starts over, as assigning a new parser does. */
    method Restart()
      modifies this
      ensures Valid() && Model() == NEW_PARSER
    {
      buffer, current, hasData, bomChecked, scannedLen := "", DEFAULT_EVENT, false, false, 0;
    }

    /** `flush`, at the end of the stream. */
    method FlushPending() returns (event: Option<Event>)
      requires Valid()
      modifies this
      ensures Valid() && Model() == Flush(old(Model()), cap).0 && event == Flush(old(Model()), cap).1
    {
      hide ProcessLine;
      if buffer != "" {
        var line := TrimCr(buffer);
        buffer := "";
        ProcessOneLine(line);
      }
      if hasData {
        if current.data != "" && current.data[|current.data| - 1] == '\n' {
          current := current.(data := current.data[..|current.data| - 1]);
        }
        if current.event == "" { current := current.(event := "message"); }
        event := Some(current);
        current := DEFAULT_EVENT;
        hasData := false;
      } else {
        event := None;
      }
    }
  }

  /** The events so far and those still to come from `s` are the whole. */
  ghost predicate Ahead(whole: Drained, events: seq<Event>, s: string, r: Reading, cap: nat) {
    var d := Drain(s, r, cap);
    whole.rest == d.rest && whole.reading == d.reading && whole.events == events + d.events
  }

  lemma AheadStart(s: string, r: Reading, cap: nat)
    ensures Ahead(Drain(s, r, cap), [], s, r, cap)
  {
    assert [] + Drain(s, r, cap).events == Drain(s, r, cap).events;
  }

  lemma AheadStep(whole: Drained, events: seq<Event>, s: string, r: Reading, cap: nat)
    requires Ahead(whole, events, s, r, cap)
    ensures NextLine(s).None? ==> whole == Drained(s, r, events)
    ensures NextLine(s).Some? ==>
      var step := LineStep(s[..NextLine(s).value.0], r, cap);
      Ahead(whole, events + step.1, s[NextLine(s).value.1..], step.0, cap)
  {
    hide LineStep, NextLine;
    if NextLine(s).None? {
      assert events + [] == events;
    } else {
      var step := LineStep(s[..NextLine(s).value.0], r, cap);
      var d := Drain(s[NextLine(s).value.1..], step.0, cap);
      assert events + (step.1 + d.events) == events + step.1 + d.events;
    }
  }

  /** The first terminator found from a scanned position ends the first line. */
  lemma LineAt(source: string, start: nat, pos: nat)
    requires start <= pos <= |source| && (forall i :: start <= i < pos ==> !IsTerm(source[i]))
    requires pos < |source| ==> IsTerm(source[pos])
    ensures NextLine(source[start..]) ==
      if pos == |source| || (source[pos] == '\r' && pos + 1 == |source|) then None
      else Some((pos - start, (if source[pos] == '\r' && source[pos + 1] == '\n' then pos + 2 else pos + 1) - start))
  {
    var s := source[start..];
    assert forall i :: 0 <= i < |s| ==> s[i] == source[start + i];
    assert FindTerm(s, 0) == pos - start;
  }

  /** A waiting buffer has no line end before its last byte. */
  lemma ScannedHasNoLine(buffer: string, data: string)
    requires NextLine(buffer).None? && buffer != ""
    ensures forall i :: 0 <= i < |buffer| - 1 ==> !IsTerm((buffer + data)[i])
  {
    assert forall i :: 0 <= i < |buffer| ==> (buffer + data)[i] == buffer[i];
    assert FindTerm(buffer, 0) >= |buffer| - 1;
  }
}
