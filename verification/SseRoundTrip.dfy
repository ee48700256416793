/** What a server means and what the client reads: messages written in the event stream
    format, with any fields in any order, any line ending and any cut into chunks, come
    out of the parser as they went in. */
module SseRoundTrip {
  import opened Sse
  import opened SseFields
  import opened Wrappers

  datatype LineEnd = Lf | Cr | CrLf

  /** A message: its fields in the order written, and the line ending it is written with. */
  datatype Message = Message(fields: seq<Field>, end: LineEnd)

  function Ending(end: LineEnd): string {
    match end
    case Lf => "\n"
    case Cr => "\r"
    case CrLf => "\r\n"
  }

  ghost predicate Sendable(m: Message) {
    m.fields != [] && forall i :: 0 <= i < |m.fields| ==> Legal(m.fields[i])
  }

  function Lines(lines: seq<string>, end: LineEnd): string {
    if lines == [] then "" else lines[0] + Ending(end) + Lines(lines[1..], end)
  }

  /** The lines of a message, without the blank one that ends it. */
  function Written(fs: seq<Field>): (lines: seq<string>)
    ensures |lines| == |fs| && forall i :: 0 <= i < |fs| ==> lines[i] == Write(fs[i])
  {
    seq(|fs|, i requires 0 <= i < |fs| => Write(fs[i]))
  }

  function Encode(m: Message): string { Lines(Written(m.fields), m.end) + Ending(m.end) }

  function EncodeAll(ms: seq<Message>): string {
    if ms == [] then "" else Encode(ms[0]) + EncodeAll(ms[1..])
  }

  /** The events meant: an id or a retry hint stays in force until another is set. */
  function Meant(ms: seq<Message>, id: Option<string>, retry: Option<nat>, cap: nat): seq<Event> {
    if ms == [] then []
    else
      var fs := ms[0].fields;
      Dispatched(fs, id, retry, cap) + Meant(ms[1..], IdAfter(fs, id), RetryAfter(fs, retry), cap)
  }

  // ---- lines, whatever ends them ----

  /** What the reader makes of a list of non-blank lines. */
  function Fold(lines: seq<string>, r: Reading, cap: nat): Reading {
    if lines == [] then r else Fold(lines[1..], ProcessLine(lines[0], r, cap), cap)
  }

  ghost predicate Plain(lines: seq<string>) {
    forall i :: 0 <= i < |lines| ==> lines[i] != "" && OneLine(lines[i]) && lines[i][0] != '\n'
  }

  lemma EndedLine(line: string, end: LineEnd, rest: string, r: Reading, cap: nat)
    requires line != "" && OneLine(line) && rest != "" && (end.Cr? ==> rest[0] != '\n')
    ensures Drain(line + Ending(end) + rest, r, cap) == Drain(rest, ProcessLine(line, r, cap), cap)
  {
    hide ProcessLine, Drain;
    match end {
      case Lf => PlainLine(line, rest, r, cap);
      case Cr => CrLine(line, rest, r, cap);
      case CrLf => CrLfLine(line, rest, r, cap);
    }
    var d := Drain(rest, ProcessLine(line, r, cap), cap);
    assert [] + d.events == d.events;
  }

  lemma {:induction false} LinesRead(lines: seq<string>, end: LineEnd, rest: string, r: Reading, cap: nat)
    requires Plain(lines) && rest != "" && (end.Cr? ==> rest[0] != '\n')
    ensures Drain(Lines(lines, end) + rest, r, cap) == Drain(rest, Fold(lines, r, cap), cap)
    decreases |lines|
  {
    hide ProcessLine, Drain, OneLine;
    if lines == [] {
      assert Lines(lines, end) + rest == rest;
    } else {
      var tail := Lines(lines[1..], end) + rest;
      assert Lines(lines, end) + rest == lines[0] + Ending(end) + tail;
      if lines[1..] != [] { assert tail[0] == lines[1][0]; } else { assert tail == rest; }
      EndedLine(lines[0], end, tail, r, cap);
      LinesRead(lines[1..], end, rest, ProcessLine(lines[0], r, cap), cap);
    }
  }

  // ---- one message ----

  /** The lines of a message gather exactly its fields. */
  lemma {:induction false} FieldsFold(
    done: seq<Field>, todo: seq<Field>, id: Option<string>, retry: Option<nat>, cap: nat)
    requires forall i :: 0 <= i < |todo| ==> Legal(todo[i])
    ensures Fold(Written(todo), Gathered(done, id, retry, cap), cap) == Gathered(done + todo, id, retry, cap)
    decreases |todo|
  {
    hide ProcessLine, Gathered, Legal, Write;
    if todo == [] {
      assert done + todo == done && Written(todo) == [];
    } else {
      FieldGathered(done, todo[0], id, retry, cap);
      assert Written(todo)[1..] == Written(todo[1..]) && Written(todo)[0] == Write(todo[0]);
      FieldsFold(done + [todo[0]], todo[1..], id, retry, cap);
      assert done + [todo[0]] + todo[1..] == done + todo;
    }
  }

  /** Between messages nothing is gathered but the id and the retry hint in force. */
  function Idle(id: Option<string>, retry: Option<nat>): Reading { Reading(Event("message", "", id, retry), false) }

  lemma SpelledPlain(name: string, value: string, spacing: Spacing)
    requires OneLine(name) && name != "" && OneLine(value)
    ensures var line := Spelled(name, value, spacing); line != "" && OneLine(line) && line[0] != '\n'
  {
  }

  lemma FieldPlain(f: Field)
    requires Legal(f)
    ensures var line := Write(f); line != "" && OneLine(line) && line[0] != '\n'
  {
    hide Spelled, Digits, Zeros, Spells;
    match f {
      case Comment(text) => assert Write(f)[0] == ':';
      case Type(value, spacing) => SpelledPlain("event", value, spacing);
      case Data(value, spacing) => SpelledPlain("data", value, spacing);
      case Id(value, spacing) => SpelledPlain("id", value, spacing);
      case Millis(zeros, millis, spacing) =>
        MillisSpelled(zeros, millis);
        SpelledPlain("retry", Zeros(zeros) + Digits(millis), spacing);
      case NotMillis(value, spacing) => SpelledPlain("retry", value, spacing);
      case Other(name, value, spacing) => SpelledPlain(name, value, spacing);
    }
  }

  lemma WrittenPlain(m: Message)
    requires Sendable(m)
    ensures Plain(Written(m.fields)) && Written(m.fields) != []
  {
    hide Legal, Write, OneLine;
    forall i | 0 <= i < |m.fields|
      ensures var line := Written(m.fields)[i]; line != "" && OneLine(line) && line[0] != '\n'
    {
      FieldPlain(m.fields[i]);
    }
  }

  /** The blank line that ends a message. Two newlines at the end of everything may lend
      a closing CR their LF. */
  lemma BlankRead(end: LineEnd, rest: string, r: Reading, cap: nat)
    requires rest != "" && (rest[0] == '\n' ==> rest == "\n\n")
    ensures Drain(Ending(end) + rest, r, cap).events == Emitted(r) + Drain(rest, AfterBlank(r), cap).events
  {
    hide Drain;
    assert "" + Ending(end) + rest == Ending(end) + rest;
    if end.Cr? && rest == "\n\n" {
      CrLfLine("", "\n", r, cap);
      assert "" + "\r\n" + "\n" == "\r" + rest;
      OneBlank(AfterBlank(r), cap);
      PlainLine("", "\n", AfterBlank(r), cap);
      assert "" + "\n" + "\n" == rest;
      OneBlank(AfterBlank(AfterBlank(r)), cap);
    } else {
      match end {
        case Lf => PlainLine("", rest, r, cap);
        case Cr => CrLine("", rest, r, cap);
        case CrLf => CrLfLine("", rest, r, cap);
      }
    }
  }

  /** One written message is read as the event it means, and leaves only its id and its
      retry hint behind. */
  lemma MessageRead(m: Message, rest: string, id: Option<string>, retry: Option<nat>, cap: nat)
    requires Sendable(m) && rest != "" && (rest[0] == '\n' ==> rest == "\n\n")
    ensures Drain(Encode(m) + rest, Idle(id, retry), cap).events
         == Dispatched(m.fields, id, retry, cap)
            + Drain(rest, Idle(IdAfter(m.fields, id), RetryAfter(m.fields, retry)), cap).events
  {
    hide Drain, Fold, Plain, Encode, Lines, Ending, Emitted, AfterBlank, Gathered, Legal;
    hide Dispatched, IdAfter, RetryAfter;
    WrittenPlain(m);
    FieldsFold([], m.fields, id, retry, cap);
    assert [] + m.fields == m.fields;
    NothingGathered(id, retry, cap);
    EncodeSplits(m, rest);
    LinesRead(Written(m.fields), m.end, Ending(m.end) + rest, Idle(id, retry), cap);
    BlankRead(m.end, rest, Gathered(m.fields, id, retry, cap), cap);
    GatheredEmits(m.fields, id, retry, cap);
  }

  lemma NothingGathered(id: Option<string>, retry: Option<nat>, cap: nat)
    ensures Gathered([], id, retry, cap) == Idle(id, retry)
  {
  }

  lemma EncodeSplits(m: Message, rest: string)
    ensures Encode(m) + rest == Lines(Written(m.fields), m.end) + (Ending(m.end) + rest)
    ensures var body := Ending(m.end) + rest; body != "" && (m.end.Cr? ==> body[0] != '\n')
  {
    hide Written, Lines;
  }

  lemma GatheredEmits(fs: seq<Field>, id: Option<string>, retry: Option<nat>, cap: nat)
    ensures Emitted(Gathered(fs, id, retry, cap)) == Dispatched(fs, id, retry, cap)
    ensures AfterBlank(Gathered(fs, id, retry, cap)) == Idle(IdAfter(fs, id), RetryAfter(fs, retry))
  {
    hide Kept, Joined, DataLines, TypeOf, IdAfter, RetryAfter;
    var text := Joined(Kept(DataLines(fs), cap));
    assert (text + "\n")[..|text|] == text;
    NoText();
  }

  lemma NoText()
    ensures Joined([]) == ""
  {
  }

  /** Written messages, followed by two newlines, are read as the events meant. */
  lemma {:induction false} MessagesRead(ms: seq<Message>, id: Option<string>, retry: Option<nat>, cap: nat)
    requires forall i :: 0 <= i < |ms| ==> Sendable(ms[i])
    ensures Drain(EncodeAll(ms) + "\n\n", Idle(id, retry), cap).events == Meant(ms, id, retry, cap)
    decreases |ms|
  {
    hide Sendable, Encode, Drain, Dispatched, IdAfter, RetryAfter;
    if ms == [] {
      assert "" + "\n\n" == "\n\n";
      BlankEnd(id, retry, cap);
    } else {
      var m := ms[0];
      var rest := EncodeAll(ms[1..]) + "\n\n";
      FirstByte(ms[1..]);
      assert EncodeAll(ms[1..]) == "" ==> rest == "\n\n";
      MessageRead(m, rest, id, retry, cap);
      MessagesRead(ms[1..], IdAfter(m.fields, id), RetryAfter(m.fields, retry), cap);
      assert EncodeAll(ms) + "\n\n" == Encode(m) + rest;
    }
  }

  lemma BlankEnd(id: Option<string>, retry: Option<nat>, cap: nat)
    ensures Drain("\n\n", Idle(id, retry), cap).events == []
  {
    PlainLine("", "\n", Idle(id, retry), cap);
    assert "" + "\n" + "\n" == "\n\n";
    TwoBlanks(Idle(id, retry), cap);
  }

  lemma FirstByte(ms: seq<Message>)
    requires forall i :: 0 <= i < |ms| ==> Sendable(ms[i])
    ensures EncodeAll(ms) != "" ==> EncodeAll(ms)[0] != '\n'
  {
    hide Sendable, Written, OneLine;
    if ms != [] {
      WrittenPlain(ms[0]);
      assert Encode(ms[0])[0] == Written(ms[0].fields)[0][0];
    }
  }

  // ---- a stream of messages ----

  /** The messages, after a byte order mark if there is one. */
  function Sent(bom: bool, ms: seq<Message>): string { (if bom then BOM else "") + EncodeAll(ms) }

  /** Round trip: messages with any fields, behind a byte order mark or not, written with any
      mix of line endings and delivered in any chunks that fit the buffer, are read back
      exactly and in order, the last one at the latest when the stream is flushed. Only a
      stream without a mark must not begin like one. */
  lemma RoundTrip(bom: bool, ms: seq<Message>, chunks: seq<string>, cap: nat)
    requires forall i :: 0 <= i < |ms| ==> Sendable(ms[i])
    requires bom || !(BOM <= EncodeAll(ms))
    requires Concat(chunks) == Sent(bom, ms) && Fits(NEW_PARSER, chunks, cap)
    ensures var fed := FeedAll(NEW_PARSER, chunks, cap);
      fed.events + (match Flush(fed.parser, cap).1 { case None => [] case Some(e) => [e] })
      == Meant(ms, None, None, cap)
  {
    hide Drain, Sendable, Flush, EncodeAll, Feed, Overflows, Waiting, Fits, FeedAll, Meant, WholeBom;
    var text := Sent(bom, ms);
    StartWaiting();
    FeedAllIsFeed(NEW_PARSER, chunks, cap);
    EncodedEnds(ms);
    SentWhole(bom, ms, cap);
    SentDrained(bom, ms, cap);
    FeedSplits(NEW_PARSER, text, "\n\n", cap);
    FeedKeepsWaiting(NEW_PARSER, text, cap);
    FlushIsTwoNewlines(Feed(NEW_PARSER, text, cap).parser, cap);
    MessagesRead(ms, None, None, cap);
  }

  /** Every message ends with a blank line. */
  ghost predicate EndsBlank(s: string) {
    s == "" || s[|s| - 1] == '\n' || (|s| > 1 && s[|s| - 2] == s[|s| - 1] == '\r')
  }

  lemma {:induction false} EncodedEnds(ms: seq<Message>)
    requires forall i :: 0 <= i < |ms| ==> Sendable(ms[i])
    ensures EndsBlank(EncodeAll(ms))
    decreases |ms|
  {
    hide Encode, Sendable;
    if ms != [] {
      EncodedEnds(ms[1..]);
      MessageEnds(ms[0]);
      var one, rest := Encode(ms[0]), EncodeAll(ms[1..]);
      if |rest| == 0 {
        assert one + rest == one;
      } else {
        assert EncodeAll(ms)[|one + rest| - 1] == rest[|rest| - 1];
        assert |rest| > 1 ==> EncodeAll(ms)[|one + rest| - 2] == rest[|rest| - 2];
      }
    }
  }

  lemma MessageEnds(m: Message)
    requires Sendable(m)
    ensures EndsBlank(Encode(m)) && Encode(m) != ""
  {
    LinesEnd(Written(m.fields), m.end);
    assert Written(m.fields) != [];
    hide Written, Legal;
    var lines := Lines(Written(m.fields), m.end);
    assert Encode(m) == lines + Ending(m.end);
    assert m.end.Cr? ==> Encode(m)[|lines| - 1] == lines[|lines| - 1] == '\r';
  }

  lemma {:induction false} LinesEnd(lines: seq<string>, end: LineEnd)
    ensures lines != [] ==>
      var text, ending := Lines(lines, end), Ending(end); text != "" && text[|text| - 1] == ending[|ending| - 1]
    decreases |lines|
  {
    if lines != [] {
      LinesEnd(lines[1..], end);
      var head, rest := lines[0] + Ending(end), Lines(lines[1..], end);
      assert Lines(lines, end) == head + rest;
      assert rest == "" ==> head + rest == head;
    }
  }

  /** The mark is taken off, once, and nothing else is. */
  lemma MarkTaken(bom: bool, text: string)
    requires bom || !(BOM <= text)
    ensures WithoutBom((if bom then BOM else "") + text, false) == text
  {
    var s := (if bom then BOM else "") + text;
    if bom {
      assert s[..3] == BOM && s[3..] == text;
    } else {
      assert s == text && (|text| >= 3 ==> (text[..3] == BOM <==> BOM <= text));
    }
  }

  lemma SentWhole(bom: bool, ms: seq<Message>, cap: nat)
    requires bom || !(BOM <= EncodeAll(ms))
    requires EndsBlank(EncodeAll(ms))
    ensures WholeBom(Sent(bom, ms)) && !Overflows(NEW_PARSER, Sent(bom, ms), cap)
  {
    hide Drain, WithoutBom, EncodeAll;
    LittleWaits(EncodeAll(ms), Reading(DEFAULT_EVENT, false), cap);
    MarkTaken(bom, EncodeAll(ms));
    var text := Sent(bom, ms);
    assert "" + text == text;
    assert EncodeAll(ms) != "" ==> IsTerm(text[|text| - 1]);
  }

  lemma SentDrained(bom: bool, ms: seq<Message>, cap: nat)
    requires bom || !(BOM <= EncodeAll(ms))
    ensures var s := Sent(bom, ms) + "\n\n";
      !Overflows(NEW_PARSER, s, cap) ==>
      Feed(NEW_PARSER, s, cap).events == Drain(EncodeAll(ms) + "\n\n", Idle(None, None), cap).events
  {
    hide Drain, WithoutBom, EncodeAll;
    var plain, s := EncodeAll(ms), Sent(bom, ms) + "\n\n";
    assert "" + s == s == (if bom then BOM else "") + (plain + "\n\n");
    MarkNeedsThree(plain);
    MarkTaken(bom, plain + "\n\n");
  }

  lemma MarkNeedsThree(s: string)
    ensures BOM <= s + "\n\n" ==> BOM <= s
  {
    var t := s + "\n\n";
    if BOM <= t {
      assert t[0] == BOM[0] && t[1] == BOM[1] && t[2] == BOM[2];
      assert |s| >= 3 ==> t[..3] == s[..3];
    }
  }

  lemma StartWaiting()
    ensures Waiting(NEW_PARSER)
  {
  }
}
