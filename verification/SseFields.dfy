/** The fields of the event stream format: how a server may write each, what a list of
    them means, and that the reader gathers exactly that meaning, field by field. Every
    line that is not blank is some field, so the field rules are covered whole. */
module SseFields {
  import opened Integers
  import opened Sse
  import opened Wrappers

  /** `name: value`, `name:value`, or the name alone. */
  datatype Spacing = Spaced | Tight | Bare

  datatype Field =
    | Comment(text: string)
    | Type(value: string, spacing: Spacing)
    | Data(value: string, spacing: Spacing)
    | Id(value: string, spacing: Spacing)
    | Millis(zeros: nat, millis: nat, spacing: Spacing)
    | NotMillis(value: string, spacing: Spacing)
    | Other(name: string, value: string, spacing: Spacing)

  ghost predicate OneLine(s: string) { forall i :: 0 <= i < |s| ==> !IsTerm(s[i]) }

  // ---- writing ----

  function DigitChar(d: nat): char
    requires d < 10
  {
    ('0' as int + d) as char
  }

  function Digits(n: nat): string {
    if n < 10 then [DigitChar(n)] else Digits(n / 10) + [DigitChar(n % 10)]
  }

  function Zeros(k: nat): string { seq(k, _ => '0') }

  function Spelled(name: string, value: string, spacing: Spacing): string {
    match spacing
    case Spaced => name + ": " + value
    case Tight => name + ":" + value
    case Bare => name
  }

  function Write(f: Field): string {
    match f
    case Comment(text) => ":" + text
    case Type(value, spacing) => Spelled("event", value, spacing)
    case Data(value, spacing) => Spelled("data", value, spacing)
    case Id(value, spacing) => Spelled("id", value, spacing)
    case Millis(zeros, millis, spacing) => Spelled("retry", Zeros(zeros) + Digits(millis), spacing)
    case NotMillis(value, spacing) => Spelled("retry", value, spacing)
    case Other(name, value, spacing) => Spelled(name, value, spacing)
  }

  /** The value survives the spacing: a space is left out only where the value does not
      begin with one, and a name alone has the empty value. */
  ghost predicate Spaces(value: string, spacing: Spacing) {
    match spacing
    case Spaced => true
    case Tight => value == "" || value[0] != ' '
    case Bare => value == ""
  }

  /** `value` writes the number `n` of milliseconds, perhaps with leading zeros. */
  ghost predicate Spells(value: string, n: nat) {
    n <= U64_MAX && exists k: nat :: value == Zeros(k) + Digits(n)
  }

  /** A field that can be written. Any name but the four known ones is another field, and
      so is the bare word `retry`. */
  ghost predicate Legal(f: Field) {
    match f
    case Comment(text) => OneLine(text)
    case Type(value, spacing) => OneLine(value) && Spaces(value, spacing)
    case Data(value, spacing) => OneLine(value) && Spaces(value, spacing)
    case Id(value, spacing) => OneLine(value) && Spaces(value, spacing)
    case Millis(zeros, millis, spacing) => millis <= U64_MAX && !spacing.Bare?
    case NotMillis(value, spacing) =>
      OneLine(value) && Spaces(value, spacing) && !spacing.Bare? && forall n: nat :: !Spells(value, n)
    case Other(name, value, spacing) =>
      && OneLine(name) && OneLine(value) && Spaces(value, spacing) && name != "" && ':' !in name
      && name !in {"event", "data", "id"} && (name == "retry" ==> spacing.Bare?)
  }

  // ---- meaning ----

  /** The lines joined by newlines. */
  function Joined(lines: seq<string>): string {
    if lines == [] then ""
    else if |lines| == 1 then lines[0]
    else Joined(lines[..|lines| - 1]) + "\n" + lines[|lines| - 1]
  }

  /** The values of the data fields, in order. */
  function DataLines(fs: seq<Field>): seq<string> {
    if fs == [] then []
    else
      var f, before := fs[|fs| - 1], DataLines(fs[..|fs| - 1]);
      if f.Data? then before + [f.value] else before
  }

  /** The bytes lines take, each with its newline. */
  function Size(lines: seq<string>): nat {
    if lines == [] then 0 else Size(lines[..|lines| - 1]) + |lines[|lines| - 1]| + 1
  }

  /** The lines that fit: each is kept if it fits with those kept before it. */
  function Kept(lines: seq<string>, cap: nat): seq<string> {
    if lines == [] then []
    else
      var line, before := lines[|lines| - 1], Kept(lines[..|lines| - 1], cap);
      if Size(before + [line]) <= cap then before + [line] else before
  }

  /** The last type given, if any. */
  function TypeOf(fs: seq<Field>): string {
    if fs == [] then "message"
    else if fs[|fs| - 1].Type? then fs[|fs| - 1].value
    else TypeOf(fs[..|fs| - 1])
  }

  /** The last id given, else the one in force; an id with a NUL is none. */
  function IdAfter(fs: seq<Field>, id: Option<string>): Option<string> {
    if fs == [] then id
    else
      var f := fs[|fs| - 1];
      if f.Id? && '\0' !in f.value then Some(f.value) else IdAfter(fs[..|fs| - 1], id)
  }

  /** The last retry hint, else the one in force; a hint that is no number withdraws it. */
  function RetryAfter(fs: seq<Field>, retry: Option<nat>): Option<nat> {
    if fs == [] then retry
    else
      var f := fs[|fs| - 1];
      if f.Millis? then Some(f.millis) else if f.NotMillis? then None else RetryAfter(fs[..|fs| - 1], retry)
  }

  /** The event a message means, if it has a data field: an empty type is `message`. */
  function Dispatched(fs: seq<Field>, id: Option<string>, retry: Option<nat>, cap: nat): seq<Event> {
    if DataLines(fs) == [] then []
    else
      var kind := if TypeOf(fs) == "" then "message" else TypeOf(fs);
      [Event(kind, Joined(Kept(DataLines(fs), cap)), IdAfter(fs, id), RetryAfter(fs, retry))]
  }

  /** Data within the cap is kept whole. */
  lemma {:induction false} KeptWhole(lines: seq<string>, cap: nat)
    requires Size(lines) <= cap
    ensures Kept(lines, cap) == lines
  {
    if lines != [] {
      KeptWhole(lines[..|lines| - 1], cap);
      assert lines[..|lines| - 1] + [lines[|lines| - 1]] == lines;
    }
  }

  lemma JoinedMore(lines: seq<string>, line: string)
    ensures Joined(lines + [line]) == if lines == [] then line else Joined(lines) + "\n" + line
    ensures Size(lines + [line]) == Size(lines) + |line| + 1
  {
    var both := lines + [line];
    assert both[..|both| - 1] == lines && both[|both| - 1] == line;
  }

  /** The size counts the joined text and its last newline. */
  lemma {:induction false} SizeIsLength(lines: seq<string>)
    ensures lines != [] ==> Size(lines) == |Joined(lines)| + 1
  {
    if lines != [] {
      var init, last := lines[..|lines| - 1], lines[|lines| - 1];
      SizeIsLength(init);
      JoinedMore(init, last);
      assert init + [last] == lines;
    }
  }

  // ---- one field ----

  lemma {:induction false} ColonAfter(name: string, rest: string)
    requires ':' !in name
    ensures IndexOf(name + ":" + rest, ':') == Some(|name|)
  {
    var s := name + ":" + rest;
    if name == "" {
      assert s[0] == ':';
    } else {
      ColonAfter(name[1..], rest);
      assert s[0] == name[0] && s[1..] == name[1..] + ":" + rest;
    }
  }

  /** The reader's cut of a written field: the name, and the value without the space. */
  lemma SpelledReads(name: string, value: string, spacing: Spacing)
    requires ':' !in name && name != "" && Spaces(value, spacing)
    ensures var line := Spelled(name, value, spacing);
      if spacing.Bare? then line == name && IndexOf(line, ':') == None
      else
        && IndexOf(line, ':') == Some(|name|) && |name| < |line| && line[..|name|] == name
        && var raw := line[|name| + 1..];
           (if raw != [] && raw[0] == ' ' then raw[1..] else raw) == value
  {
    var line := Spelled(name, value, spacing);
    match spacing {
      case Bare => NoColon(name);
      case Tight =>
        ColonAfter(name, value);
        assert line[|name| + 1..] == value;
      case Spaced =>
        ColonAfter(name, " " + value);
        assert line == name + ":" + (" " + value);
        assert line[|name| + 1..] == " " + value && (" " + value)[1..] == value;
    }
  }

  lemma TypeField(value: string, spacing: Spacing, r: Reading, cap: nat)
    requires Spaces(value, spacing)
    ensures ProcessLine(Spelled("event", value, spacing), r, cap) == r.(current := r.current.(event := value))
  {
    SpelledReads("event", value, spacing);
  }

  lemma IdField(value: string, spacing: Spacing, r: Reading, cap: nat)
    requires Spaces(value, spacing)
    ensures ProcessLine(Spelled("id", value, spacing), r, cap)
         == if '\0' in value then r else r.(current := r.current.(id := Some(value)))
  {
    SpelledReads("id", value, spacing);
  }

  lemma DataField(value: string, spacing: Spacing, r: Reading, cap: nat)
    requires Spaces(value, spacing)
    ensures ProcessLine(Spelled("data", value, spacing), r, cap)
         == if |r.current.data| + |value| + 1 > cap then r.(hasData := true)
            else Reading(r.current.(data := r.current.data + value + "\n"), true)
  {
    SpelledReads("data", value, spacing);
  }

  lemma RetryField(value: string, spacing: Spacing, r: Reading, cap: nat)
    requires Spaces(value, spacing) && !spacing.Bare?
    ensures ProcessLine(Spelled("retry", value, spacing), r, cap)
         == r.(current := r.current.(retry := ParseRetry(value)))
  {
    hide ParseRetry;
    SpelledReads("retry", value, spacing);
  }

  lemma OtherField(name: string, value: string, spacing: Spacing, r: Reading, cap: nat)
    requires Legal(Other(name, value, spacing))
    ensures ProcessLine(Spelled(name, value, spacing), r, cap) == r
  {
    hide OneLine, ParseRetry;
    SpelledReads(name, value, spacing);
    NotComment(name, value, spacing);
  }

  lemma NotComment(name: string, value: string, spacing: Spacing)
    requires name != "" && ':' !in name
    ensures IndexOf(Spelled(name, value, spacing), ':') != Some(0)
  {
    assert Spelled(name, value, spacing)[0] == name[0];
  }

  lemma CommentIgnored(text: string, r: Reading, cap: nat)
    ensures ProcessLine(":" + text, r, cap) == r
  {
    assert (":" + text)[0] == ':';
  }

  // ---- retry hints ----

  ghost predicate AllDigits(s: string) { forall i :: 0 <= i < |s| ==> '0' <= s[i] <= '9' }

  lemma {:induction false} DigitsRead(n: nat)
    ensures Digits(n) != "" && forall i :: 0 <= i < |Digits(n)| ==> '0' <= Digits(n)[i] <= '9'
    ensures Decimal(Digits(n)) == n
  {
    var s := Digits(n);
    if n < 10 {
      assert s[..0] == "";
    } else {
      DigitsRead(n / 10);
      assert s[..|s| - 1] == Digits(n / 10);
    }
  }

  lemma DecimalMore(s: string, c: char)
    requires AllDigits(s) && '0' <= c <= '9'
    ensures AllDigits(s + [c]) && Decimal(s + [c]) == 10 * Decimal(s) + (c as int - '0' as int)
  {
    var both := s + [c];
    assert both[..|both| - 1] == s && both[|both| - 1] == c;
  }

  /** Leading zeros change nothing. */
  lemma {:induction false} ZerosRead(k: nat, s: string)
    requires AllDigits(s)
    ensures AllDigits(Zeros(k) + s) && Decimal(Zeros(k) + s) == Decimal(s)
    decreases |s|, k
  {
    if s != "" {
      var init, last := s[..|s| - 1], s[|s| - 1];
      ZerosRead(k, init);
      DecimalMore(init, last);
      DecimalMore(Zeros(k) + init, last);
      assert init + [last] == s && Zeros(k) + init + [last] == Zeros(k) + s;
    } else if k > 0 {
      ZerosRead(k - 1, "");
      DecimalMore(Zeros(k - 1), '0');
      assert Zeros(k - 1) + "" == Zeros(k - 1);
      assert Zeros(k - 1) + ['0'] == Zeros(k) + s;
    } else {
      assert Zeros(0) + s == s;
    }
  }

  /** Every digit string is a number with leading zeros. */
  lemma {:induction false} DigitsOfDecimal(s: string) returns (k: nat)
    requires AllDigits(s) && s != ""
    ensures s == Zeros(k) + Digits(Decimal(s))
  {
    hide Zeros, Digits;
    var init, last := s[..|s| - 1], s[|s| - 1];
    if init == "" {
      OneDigit(last);
      k := 0;
    } else {
      k := DigitsOfDecimal(init);
      OneMoreDigit(k, Decimal(init), last);
      k := if Decimal(init) == 0 then k + 1 else k;
    }
    assert s == init + [last];
  }

  lemma OneDigit(c: char)
    requires '0' <= c <= '9'
    ensures Zeros(0) + Digits(c as int - '0' as int) == [c]
  {
  }

  lemma OneMoreDigit(k: nat, n: nat, c: char)
    requires '0' <= c <= '9'
    ensures var m := 10 * n + (c as int - '0' as int);
      Zeros(k) + Digits(n) + [c] == Zeros(if n == 0 then k + 1 else k) + Digits(m)
  {
    var d := c as int - '0' as int;
    assert DigitChar(d) == c && (10 * n + d) / 10 == n && (10 * n + d) % 10 == d;
    assert Zeros(k) + "0" == Zeros(k + 1);
  }

  /** A retry hint is read exactly when it is written as a number of 64 bits. */
  lemma RetryReadIff(value: string, n: nat)
    ensures ParseRetry(value) == Some(n) <==> Spells(value, n)
  {
    hide Decimal, Digits, Zeros;
    if Spells(value, n) {
      var k: nat :| value == Zeros(k) + Digits(n);
      DigitsRead(n);
      ZerosRead(k, Digits(n));
      assert AllDigits(value);
    }
    if ParseRetry(value) == Some(n) {
      assert AllDigits(value);
      var k := DigitsOfDecimal(value);
    }
  }

  lemma RetryIsJunk(value: string)
    requires forall n: nat :: !Spells(value, n)
    ensures ParseRetry(value) == None
  {
    hide ParseRetry, Spells;
    if ParseRetry(value).Some? { RetryReadIff(value, ParseRetry(value).value); }
  }

  lemma MillisSpelled(zeros: nat, millis: nat)
    requires millis <= U64_MAX
    ensures var value := Zeros(zeros) + Digits(millis);
      ParseRetry(value) == Some(millis) && OneLine(value) && value != "" && value[0] != ' '
  {
    hide Decimal, Digits, Zeros;
    var value := Zeros(zeros) + Digits(millis);
    assert Spells(value, millis);
    RetryReadIff(value, millis);
    DigitsRead(millis);
    ZerosRead(zeros, Digits(millis));
    assert AllDigits(value);
  }

  // ---- the fields gathered ----

  /** What the reader holds after the fields `fs` of a message. */
  function Gathered(fs: seq<Field>, id: Option<string>, retry: Option<nat>, cap: nat): Reading {
    var kept := Kept(DataLines(fs), cap);
    Reading(Event(TypeOf(fs), if kept == [] then "" else Joined(kept) + "\n", IdAfter(fs, id), RetryAfter(fs, retry)),
            DataLines(fs) != [])
  }

  lemma OneMoreField(fs: seq<Field>, f: Field, id: Option<string>, retry: Option<nat>)
    ensures DataLines(fs + [f]) == if f.Data? then DataLines(fs) + [f.value] else DataLines(fs)
    ensures TypeOf(fs + [f]) == if f.Type? then f.value else TypeOf(fs)
    ensures IdAfter(fs + [f], id) == if f.Id? && '\0' !in f.value then Some(f.value) else IdAfter(fs, id)
    ensures RetryAfter(fs + [f], retry)
         == if f.Millis? then Some(f.millis) else if f.NotMillis? then None else RetryAfter(fs, retry)
  {
    var both := fs + [f];
    assert both[..|both| - 1] == fs && both[|both| - 1] == f;
  }

  lemma KeptMore(lines: seq<string>, line: string, cap: nat)
    ensures var before := Kept(lines, cap);
      Kept(lines + [line], cap) == if Size(before) + |line| + 1 <= cap then before + [line] else before
  {
    var both := lines + [line];
    assert both[..|both| - 1] == lines && both[|both| - 1] == line;
    JoinedMore(Kept(lines, cap), line);
  }

  /** One more data field: its text is appended if it fits. */
  lemma DataGathered(fs: seq<Field>, f: Field, id: Option<string>, retry: Option<nat>, cap: nat)
    requires f.Data? && Spaces(f.value, f.spacing)
    ensures ProcessLine(Write(f), Gathered(fs, id, retry, cap), cap) == Gathered(fs + [f], id, retry, cap)
  {
    hide ProcessLine, Kept, Joined, Size, DataLines, TypeOf, IdAfter, RetryAfter, Spelled, Spaces;
    OneMoreField(fs, f, id, retry);
    DataField(f.value, f.spacing, Gathered(fs, id, retry, cap), cap);
    var kept := Kept(DataLines(fs), cap);
    KeptMore(DataLines(fs), f.value, cap);
    JoinedMore(kept, f.value);
    SizeIsLength(kept);
    NoSize();
    assert kept != [] ==> Joined(kept) + "\n" + f.value + "\n" == Joined(kept + [f.value]) + "\n";
    assert kept == [] ==> "" + f.value + "\n" == Joined(kept + [f.value]) + "\n";
  }

  lemma NoSize()
    ensures Size([]) == 0
  {
  }

  /** Reading one more written field gathers it. */
  lemma FieldGathered(fs: seq<Field>, f: Field, id: Option<string>, retry: Option<nat>, cap: nat)
    requires Legal(f)
    ensures ProcessLine(Write(f), Gathered(fs, id, retry, cap), cap) == Gathered(fs + [f], id, retry, cap)
  {
    hide ProcessLine, Kept, Joined, DataLines, TypeOf, IdAfter, RetryAfter, Spelled, OneLine;
    hide Spells, ParseRetry, Digits, Zeros;
    OneMoreField(fs, f, id, retry);
    var r := Gathered(fs, id, retry, cap);
    match f {
      case Comment(text) => CommentIgnored(text, r, cap);
      case Type(value, spacing) => TypeField(value, spacing, r, cap);
      case Data(_, _) => DataGathered(fs, f, id, retry, cap);
      case Id(value, spacing) => IdField(value, spacing, r, cap);
      case Millis(zeros, millis, spacing) =>
        MillisSpelled(zeros, millis);
        RetryField(Zeros(zeros) + Digits(millis), spacing, r, cap);
      case NotMillis(value, spacing) =>
        RetryIsJunk(value);
        RetryField(value, spacing, r, cap);
      case Other(name, value, spacing) => OtherField(name, value, spacing, r, cap);
    }
  }

  /** Nothing is left to chance: every line that is not blank is some field, written. */
  lemma EveryLineIsWritten(line: string) returns (f: Field)
    requires line != "" && OneLine(line)
    ensures Legal(f) && Write(f) == line
  {
    hide ParseRetry, Decimal, Digits, Spells, Zeros;
    ColonSplits(line);
    var colon := IndexOf(line, ':');
    if colon.None? {
      f := match line
        case "event" => Type("", Bare)
        case "data" => Data("", Bare)
        case "id" => Id("", Bare)
        case _ => Other(line, "", Bare);
    } else {
      f := ColonLineIsWritten(line, colon.value);
    }
  }

  lemma ColonLineIsWritten(line: string, i: nat) returns (f: Field)
    requires OneLine(line) && i < |line| && line[i] == ':' && ':' !in line[..i]
    ensures Legal(f) && Write(f) == line
  {
    hide ParseRetry, Decimal, Digits, Spells, Zeros, OneLine;
    var name, raw := line[..i], line[i + 1..];
    PartsOneLine(line, i);
    var spacing := if raw != "" && raw[0] == ' ' then Spaced else Tight;
    var value := if spacing.Spaced? then raw[1..] else raw;
    assert line == name + ":" + raw;
    assert spacing.Spaced? ==> raw == " " + value && name + ": " + value == name + ":" + raw;
    assert line == Spelled(name, value, spacing) && Spaces(value, spacing);
    hide Spelled, Spaces;
    if name == "" {
      f := Comment(raw);
    } else if name == "event" {
      f := Type(value, spacing);
    } else if name == "data" {
      f := Data(value, spacing);
    } else if name == "id" {
      f := Id(value, spacing);
    } else if name == "retry" {
      f := RetryWritten(value, spacing);
    } else {
      f := Other(name, value, spacing);
    }
  }

  lemma PartsOneLine(line: string, i: nat)
    requires OneLine(line) && i < |line|
    ensures OneLine(line[..i]) && OneLine(line[i + 1..]) && (i + 1 < |line| ==> OneLine(line[i + 1..][1..]))
  {
  }

  lemma RetryWritten(value: string, spacing: Spacing) returns (f: Field)
    requires OneLine(value) && Spaces(value, spacing) && !spacing.Bare?
    ensures Legal(f) && Write(f) == Spelled("retry", value, spacing)
  {
    hide ParseRetry, Decimal, Digits, Zeros;
    var hint := ParseRetry(value);
    if hint.Some? {
      RetryReadIff(value, hint.value);
      var k: nat :| value == Zeros(k) + Digits(hint.value);
      f := Millis(k, hint.value, spacing);
    } else {
      forall n: nat ensures !Spells(value, n) { RetryReadIff(value, n); }
      f := NotMillis(value, spacing);
    }
  }

  lemma {:induction false} ColonSplits(s: string)
    ensures var i := IndexOf(s, ':');
      if i.None? then ':' !in s else i.value < |s| && ':' !in s[..i.value] && s[i.value] == ':'
  {
    if s != "" && s[0] != ':' {
      ColonSplits(s[1..]);
      var i := IndexOf(s[1..], ':');
      if i.Some? { assert s[..i.value + 1] == [s[0]] + s[1..][..i.value]; }
    }
  }
}
