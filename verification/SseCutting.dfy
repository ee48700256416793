/** What cutting a byte stream can change. Any bytes, well-formed or not, are processed
    alike however they are cut, up to the buffer limit, and exactly up to it. A stream that
    ends with its first malformed chunk delivers at least what precedes the bad bytes. */
module SseCutting {
  import opened Sse
  import opened SseStream

  lemma FirstExtends(a: string, b: string)
    requires a != "" && !First(a).Partial?
    ensures First(a + b) == First(a)
  {
    assert forall i :: 0 <= i < |a| ==> (a + b)[i] == a[i];
  }

  lemma ValidUnfolds(s: string)
    ensures s == "" || !First(s).Complete? ==> ValidUpTo(s) == 0 && Rest(s) == s
    ensures s != "" && First(s).Complete? ==>
      var t := s[First(s).len..]; ValidUpTo(s) == First(s).len + ValidUpTo(t) && Rest(s) == Rest(t)
  {
    hide First;
    if s != "" && First(s).Complete? {
      var n := First(s).len;
      assert s[n..][ValidUpTo(s[n..])..] == s[n + ValidUpTo(s[n..])..];
    }
  }

  lemma {:induction false} ValidSplits(a: string, b: string)
    requires Sound(a)
    ensures ValidUpTo(a + b) == ValidUpTo(a) + ValidUpTo(Rest(a) + b)
    ensures Rest(a + b) == Rest(Rest(a) + b)
  {
    hide First, ValidUpTo, Rest;
    ValidUnfolds(a);
    if a != "" && First(a).Complete? {
      var n := First(a).len;
      FirstExtends(a, b);
      ValidUnfolds(a + b);
      assert (a + b)[n..] == a[n..] + b;
      ValidSplits(a[n..], b);
    }
  }

  lemma FirstOfPrefix(s: string, m: nat)
    requires s != "" && First(s).Complete? && First(s).len <= m <= |s|
    ensures First(s[..m]) == First(s)
  {
    var t := s[..m];
    assert t[0] == s[0] && (m > 1 ==> t[1] == s[1]) && (m > 2 ==> t[2] == s[2]) && (m > 3 ==> t[3] == s[3]);
  }

  lemma {:induction false} PrefixWellFormed(s: string)
    ensures ValidUpTo(s[..ValidUpTo(s)]) == ValidUpTo(s)
  {
    hide First, ValidUpTo;
    ValidUnfolds(s);
    if s != "" && First(s).Complete? {
      var n := First(s).len;
      var k := ValidUpTo(s[n..]);
      PrefixWellFormed(s[n..]);
      FirstOfPrefix(s, n + k);
      ValidUnfolds(s[..n + k]);
      assert s[..n + k][n..] == s[n..][..k];
    } else {
      ValidUnfolds(s[..0]);
    }
  }

  /** A well-formed text does not end inside a byte order mark. */
  lemma WellFormedHasWholeBom(s: string)
    requires ValidUpTo(s) == |s|
    ensures WholeBom(s)
  {
    assert s != "" ==> First(s).Complete?;
  }

  /** The bad bytes of `a` are found where they were, whatever follows. */
  lemma {:induction false} BadStays(a: string, b: string)
    requires !Sound(a)
    ensures ValidUpTo(a + b) == ValidUpTo(a) && Rest(a + b) == Rest(a) + b
    ensures First(Rest(a)).Bad? && First(Rest(a + b)) == First(Rest(a))
  {
    hide First, ValidUpTo, Rest;
    ValidUnfolds(a);
    FirstExtends(a, b);
    ValidUnfolds(a + b);
    if First(a).Complete? {
      var n := First(a).len;
      assert (a + b)[n..] == a[n..] + b;
      BadStays(a[n..], b);
    }
  }

  /** The text after the last bad bytes of `s` leaves no more than the buffer may hold. */
  ghost predicate EndFits(p: Parser, s: string, cap: nat)
    decreases |s|
  {
    if Sound(s) then !Overflows(p, s[..ValidUpTo(s)], cap)
    else EndFits(FeedPrefix(p, s, cap).parser, PastBad(s), cap)
  }

  /** What follows the first bad bytes. */
  ghost function PastBad(s: string): (r: string)
    requires !Sound(s)
    ensures |r| < |s|
  {
    Rest(s)[First(Rest(s)).len..]
  }

  /** The parser between chunks. */
  ghost predicate Between(p: Parser) { Waiting(p) && |p.buffer| <= MAX_BUFFER_SIZE }

  lemma FeedStaysBetween(p: Parser, s: string, cap: nat)
    requires Between(p)
    ensures Between(FeedPrefix(p, s, cap).parser)
  {
    hide Feed, ValidUpTo, Waiting;
    FeedKeepsWaiting(p, s[..ValidUpTo(s)], cap);
    FeedBounded(p, s[..ValidUpTo(s)], cap);
  }

  /** With nothing wrong in the first part, the second continues it. */
  lemma SoundThenAny(p: Parser, a: string, b: string, cap: nat)
    requires Between(p) && Sound(a) && !Overflows(p, a[..ValidUpTo(a)], cap)
    ensures var first := FeedPrefix(p, a, cap);
      var second := FeedPrefix(first.parser, Rest(a) + b, cap);
      FeedPrefix(p, a + b, cap) == Fed(second.parser, first.events + second.events)
  {
    hide Feed, First, ValidUpTo, Overflows, Between, FeedPrefix, WholeBom;
    ValidSplits(a, b);
    var k, t := ValidUpTo(a), Rest(a) + b;
    FeedPrefixIs(p, a, cap);
    FeedPrefixIs(p, a + b, cap);
    FeedStaysBetween(p, a, cap);
    FeedPrefixIs(FeedPrefix(p, a, cap).parser, t, cap);
    PrefixWellFormed(a);
    WellFormedHasWholeBom(a[..k]);
    BetweenWaits(p);
    FeedSplits(p, a[..k], t[..ValidUpTo(t)], cap);
    PrefixJoins(a, b, k, ValidUpTo(t));
  }

  lemma BetweenWaits(p: Parser)
    requires Between(p)
    ensures Waiting(p)
  {
  }

  lemma FeedPrefixIs(p: Parser, s: string, cap: nat)
    requires Between(p)
    ensures FeedPrefix(p, s, cap) == Feed(p, s[..ValidUpTo(s)], cap)
  {
    hide Feed, ValidUpTo, Waiting;
    FeedNothing(p, cap);
    assert s[..0] == "";
  }

  lemma PrefixJoins(a: string, b: string, k: nat, n: nat)
    requires k <= |a| && n <= |a[k..] + b|
    ensures (a + b)[..k + n] == a[..k] + (a[k..] + b)[..n]
  {
    assert a + b == a[..k] + (a[k..] + b);
  }

  /** Two chunks are one, for all bytes: a character cut in two reads as if it had come
      whole, bad bytes are skipped and reported alike, and only text that overflows
      the buffer at the cut can tell. */
  lemma {:induction false} ChunksJoin(p: Parser, a: string, b: string, cap: nat)
    requires Between(p) && EndFits(p, a, cap)
    ensures var first := Process(p, a, cap);
      var second := Process(first.parser, first.tail + b, cap);
      Process(p, a + b, cap)
      == Chunked(second.parser, first.events + second.events, second.tail, first.failed || second.failed)
    decreases |a|
  {
    hide First, ValidUpTo, Process, Feed, FeedPrefix, Overflows, Between, Rest;
    ProcessUnfolds(p, a, cap);
    ProcessUnfolds(p, a + b, cap);
    var fed := FeedPrefix(p, a, cap);
    if Sound(a) {
      var t := Rest(a) + b;
      ValidSplits(a, b);
      SoundThenAny(p, a, b, cap);
      ProcessUnfolds(fed.parser, t, cap);
      if !Sound(t) {
        var next := FeedPrefix(fed.parser, t, cap);
        var more := Process(next.parser, PastBad(t), cap);
        assert fed.events + next.events + more.events == fed.events + (next.events + more.events);
      }
    } else {
      SamePrefix(p, a, b, cap);
      BadStays(a, b);
      assert PastBad(a + b) == PastBad(a) + b;
      FeedStaysBetween(p, a, cap);
      ChunksJoin(fed.parser, PastBad(a), b, cap);
      var more := Process(fed.parser, PastBad(a), cap);
      var second := Process(more.parser, more.tail + b, cap);
      assert fed.events + (more.events + second.events) == fed.events + more.events + second.events;
    }
  }

  lemma SamePrefix(p: Parser, a: string, b: string, cap: nat)
    requires !Sound(a)
    ensures FeedPrefix(p, a + b, cap) == FeedPrefix(p, a, cap)
  {
    hide First, Feed, ValidUpTo;
    BadStays(a, b);
    assert (a + b)[..ValidUpTo(a)] == a[..ValidUpTo(a)];
  }

  lemma FeedBounded(p: Parser, text: string, cap: nat)
    ensures |Feed(p, text, cap).parser.buffer| <= MAX_BUFFER_SIZE
  {
  }

  /** The bytes kept between chunks: at most an unfinished character. */
  ghost predicate Unfinished(tail: string) { tail == "" || First(tail).Partial? }

  /** Bytes that finish an unfinished character, or an ordinary one. */
  ghost function Completion(tail: string): string {
    if tail == "" then "x"
    else
      var b0 := tail[0] as int;
      var length := if b0 <= 0xDF then 2 else if b0 <= 0xEF then 3 else 4;
      var second := if b0 == 0xE0 then '\U{A0}' else if b0 == 0xF0 then '\U{90}' else '\U{80}';
      (if |tail| < 2 then [second] else [])
      + (if |tail| < 3 <= length then ['\U{80}'] else []) + (if |tail| < 4 <= length then ['\U{80}'] else [])
  }

  lemma CompletionFinishes(tail: string)
    requires Unfinished(tail)
    ensures var c := tail + Completion(tail); First(c) == Complete(|c|) && Probe(c)
  {
    var c := tail + Completion(tail);
    assert forall i :: 0 <= i < |tail| ==> c[i] == tail[i];
    if tail == "" {
      assert c == "x";
    } else {
      assert |c| < 3 || c[..3] != BOM by {
        if |c| >= 3 { assert c[..3][0] == c[0] && c[..3][1] == c[1] && c[..3][2] == c[2]; }
      }
    }
  }

  lemma CompletionValid(tail: string)
    requires Unfinished(tail)
    ensures var c := tail + Completion(tail); Probe(c) && ValidUpTo(c) == |c| && Rest(c) == ""
  {
    hide First, Completion, Probe;
    var c := tail + Completion(tail);
    CompletionFinishes(tail);
    ValidUnfolds(c);
    ValidUnfolds(c[|c|..]);
  }

  /** Where the text after the last bad bytes overflows, finishing the current character
      tells two chunks from one. */
  lemma {:induction false} EndOverflowShows(p: Parser, a: string, cap: nat) returns (b: string)
    requires Between(p) && !EndFits(p, a, cap)
    ensures var first := Process(p, a, cap);
      var second := Process(first.parser, first.tail + b, cap);
      var both := Process(p, a + b, cap);
      Fed(both.parser, both.events) != Fed(second.parser, first.events + second.events)
    decreases |a|
  {
    hide First, ValidUpTo, Process, Feed, Overflows, Rest, Completion, Probe;
    ProcessUnfolds(p, a, cap);
    var fed := FeedPrefix(p, a, cap);
    if Sound(a) {
      b := Completion(Rest(a));
      OverflowAtEnd(p, a, b, cap);
    } else {
      FeedStaysBetween(p, a, cap);
      b := EndOverflowShows(fed.parser, PastBad(a), cap);
      BadStays(a, b);
      SamePrefix(p, a, b, cap);
      ProcessUnfolds(p, a + b, cap);
      assert PastBad(a + b) == PastBad(a) + b;
      var past := Process(fed.parser, PastBad(a), cap);
      Cancel(fed.events, Process(fed.parser, PastBad(a) + b, cap).events, past.events,
             Process(past.parser, past.tail + b, cap).events);
    }
  }

  lemma Cancel(x: seq<Event>, y: seq<Event>, z: seq<Event>, w: seq<Event>)
    ensures x + y == x + z + w ==> y == z + w
  {
    if x + y == x + z + w {
      assert y == (x + y)[|x|..] && z + w == (x + z + w)[|x|..];
    }
  }

  lemma OverflowAtEnd(p: Parser, a: string, b: string, cap: nat)
    requires Between(p) && Sound(a) && Overflows(p, a[..ValidUpTo(a)], cap) && b == Completion(Rest(a))
    ensures var first := Process(p, a, cap);
      var second := Process(first.parser, first.tail + b, cap);
      var both := Process(p, a + b, cap);
      Fed(both.parser, both.events) != Fed(second.parser, first.events + second.events)
  {
    hide First, ValidUpTo, Process, Feed, Overflows, Completion, Probe, Waiting;
    var k, t := ValidUpTo(a), Rest(a) + b;
    CompletionValid(Rest(a));
    ValidSplits(a, b);
    PrefixWellFormed(a);
    WellFormedHasWholeBom(a[..k]);
    OverflowShows(p, a[..k], t, cap);
    NotEmpty(p, a, t, cap);
    ProcessUnfolds(p, a, cap);
    ProcessUnfolds(p, a + b, cap);
    ProcessUnfolds(FeedPrefix(p, a, cap).parser, t, cap);
    assert t[..|t|] == t && (a + b)[..|a + b|] == a + b && a + b == a[..k] + t;
  }

  lemma NotEmpty(p: Parser, a: string, t: string, cap: nat)
    requires Between(p) && Overflows(p, a[..ValidUpTo(a)], cap) && Probe(t)
    ensures ValidUpTo(a) > 0 && t != ""
  {
    hide ValidUpTo;
    assert a[..0] == "" && p.buffer + "" == p.buffer;
  }

  /** Exactly when a cut after `a` cannot be seen, whatever bytes come next. */
  lemma ChunksJoinIff(p: Parser, a: string, cap: nat)
    requires Between(p)
    ensures EndFits(p, a, cap) <==> forall b :: JoinsBytes(p, a, b, cap)
  {
    hide Process, EndFits, Between;
    if EndFits(p, a, cap) {
      forall b ensures JoinsBytes(p, a, b, cap) { ChunksJoin(p, a, b, cap); }
    } else {
      var b := EndOverflowShows(p, a, cap);
      assert !JoinsBytes(p, a, b, cap);
    }
  }

  /** Two chunks are processed as one. */
  ghost predicate JoinsBytes(p: Parser, a: string, b: string, cap: nat) {
    var first := Process(p, a, cap);
    var second := Process(first.parser, first.tail + b, cap);
    Process(p, a + b, cap)
    == Chunked(second.parser, first.events + second.events, second.tail, first.failed || second.failed)
  }

  function ProcessAll(p: Parser, tail: string, chunks: seq<string>, cap: nat): Chunked
    decreases |chunks|
  {
    if chunks == [] then Chunked(p, [], tail, false)
    else
      var first := Process(p, tail + chunks[0], cap);
      var rest := ProcessAll(first.parser, first.tail, chunks[1..], cap);
      Chunked(rest.parser, first.events + rest.events, rest.tail, first.failed || rest.failed)
  }

  /** No chunk before a cut ends with more unfinished text than the parser's buffer may
      hold; after the last there is no cut. */
  ghost predicate CutsFit(p: Parser, tail: string, chunks: seq<string>, cap: nat)
    decreases |chunks|
  {
    |chunks| > 1 ==>
      && EndFits(p, tail + chunks[0], cap)
      && var first := Process(p, tail + chunks[0], cap); CutsFit(first.parser, first.tail, chunks[1..], cap)
  }

  /** The stream after a chunk is ready for the next. */
  lemma {:induction false} AfterChunk(p: Parser, s: string, cap: nat)
    requires Between(p)
    ensures Between(Process(p, s, cap).parser) && Unfinished(Process(p, s, cap).tail)
    ensures Process(p, s, cap).failed <==> !Sound(s)
    decreases |s|
  {
    hide First, ValidUpTo, Process, FeedPrefix, Between, Rest;
    ProcessUnfolds(p, s, cap);
    FeedStaysBetween(p, s, cap);
    if !Sound(s) { AfterChunk(FeedPrefix(p, s, cap).parser, PastBad(s), cap); }
  }

  lemma TailWaits(p: Parser, tail: string, cap: nat)
    requires Unfinished(tail)
    ensures Process(p, tail, cap) == Chunked(p, [], tail, false)
  {
    hide First, ValidUpTo, Process, Feed;
    ValidUnfolds(tail);
    ProcessUnfolds(p, tail, cap);
  }

  /** The chunking invariant over bytes: any byte stream, well-formed or not, cut anywhere,
      even inside characters, is processed as the uncut stream. */
  lemma {:induction false} StreamChunking(p: Parser, tail: string, chunks: seq<string>, cap: nat)
    requires Between(p) && Unfinished(tail) && CutsFit(p, tail, chunks, cap)
    ensures ProcessAll(p, tail, chunks, cap) == Process(p, tail + Concat(chunks), cap)
    decreases |chunks|
  {
    hide First, Process, EndFits, Between, Unfinished;
    if chunks == [] {
      assert tail + "" == tail;
      TailWaits(p, tail, cap);
    } else if |chunks| == 1 {
      LastChunk(p, tail, chunks, cap);
    } else {
      var a, b := tail + chunks[0], Concat(chunks[1..]);
      assert tail + Concat(chunks) == a + b;
      ChunksJoin(p, a, b, cap);
      AfterChunk(p, a, cap);
      var first := Process(p, a, cap);
      StreamChunking(first.parser, first.tail, chunks[1..], cap);
    }
  }

  lemma LastChunk(p: Parser, tail: string, chunks: seq<string>, cap: nat)
    requires |chunks| == 1
    ensures Concat(chunks) == chunks[0]
    ensures ProcessAll(p, tail, chunks, cap) == Process(p, tail + chunks[0], cap)
  {
    hide Process;
    assert chunks[1..] == [] && Concat(chunks[1..]) == "" && chunks[0] + "" == chunks[0];
    var c := Process(p, tail + chunks[0], cap);
    assert c.events + [] == c.events;
  }

  // ---- stopping at the first failure ----

  /** The events a stream yields when it ends with the first chunk that contains bad
      bytes, all of whose events are still delivered. */
  function Delivered(p: Parser, tail: string, chunks: seq<string>, cap: nat): seq<Event>
    decreases |chunks|
  {
    if chunks == [] then []
    else
      var first := Process(p, tail + chunks[0], cap);
      if first.failed then first.events else first.events + Delivered(first.parser, first.tail, chunks[1..], cap)
  }

  /** `a` begins `b`. */
  ghost predicate Begins(a: seq<Event>, b: seq<Event>) { |a| <= |b| && a == b[..|a|] }

  /** What a cut can change: the delivered events begin those of the whole stream and
      go at least as far as its first bad byte. With no bad byte nothing changes. */
  lemma {:induction false} DeliveredBounds(p: Parser, tail: string, chunks: seq<string>, cap: nat)
    requires Between(p) && Unfinished(tail) && CutsFit(p, tail, chunks, cap)
    ensures var s := tail + Concat(chunks);
      && Begins(Delivered(p, tail, chunks, cap), Process(p, s, cap).events)
      && Begins(FeedPrefix(p, s, cap).events, Delivered(p, tail, chunks, cap))
      && (Sound(s) ==> Delivered(p, tail, chunks, cap) == Process(p, s, cap).events)
    decreases |chunks|
  {
    hide First, Process, EndFits, Between, Unfinished, FeedPrefix, Sound, ProcessAll, Overflows;
    if chunks == [] {
      assert tail + "" == tail;
      TailWaits(p, tail, cap);
      NothingFed(p, tail, cap);
    } else if |chunks| == 1 {
      LastChunk(p, tail, chunks, cap);
      StartsWithPrefix(p, tail + chunks[0], cap);
      var c := Process(p, tail + chunks[0], cap);
      assert c.events + [] == c.events;
    } else {
      var a, b := tail + chunks[0], Concat(chunks[1..]);
      assert tail + Concat(chunks) == a + b;
      ChunksJoin(p, a, b, cap);
      AfterChunk(p, a, cap);
      var first := Process(p, a, cap);
      if first.failed {
        SamePrefix(p, a, b, cap);
        StartsWithPrefix(p, a, cap);
        UnsoundStays(a, b);
      } else {
        DeliveredBounds(first.parser, first.tail, chunks[1..], cap);
        SoundJoin(p, a, b, cap);
      }
    }
  }

  lemma NothingFed(p: Parser, tail: string, cap: nat)
    requires Unfinished(tail)
    ensures FeedPrefix(p, tail, cap) == Fed(p, [])
  {
    hide First, ValidUpTo, Feed;
    ValidUnfolds(tail);
  }

  lemma StartsWithPrefix(p: Parser, s: string, cap: nat)
    ensures Begins(FeedPrefix(p, s, cap).events, Process(p, s, cap).events)
  {
    hide First, ValidUpTo, Process, FeedPrefix, Rest;
    ProcessUnfolds(p, s, cap);
  }

  lemma UnsoundStays(a: string, b: string)
    requires !Sound(a)
    ensures !Sound(a + b)
  {
    hide First, ValidUpTo, Rest;
    BadStays(a, b);
    ValidUnfolds(a);
  }

  lemma SoundJoin(p: Parser, a: string, b: string, cap: nat)
    requires Between(p) && Sound(a) && EndFits(p, a, cap)
    ensures var first := Process(p, a, cap);
      && FeedPrefix(p, a + b, cap).events == first.events + FeedPrefix(first.parser, first.tail + b, cap).events
      && (Sound(a + b) <==> Sound(first.tail + b))
  {
    hide First, ValidUpTo, Process, FeedPrefix, Rest, Between, Overflows;
    ProcessUnfolds(p, a, cap);
    SoundThenAny(p, a, b, cap);
    ValidSplits(a, b);
  }

  // ---- exactly when stopping hides the cut ----

  /** A stream with bad bytes delivers what some of its first chunks hold, up to the one that shows them. */
  lemma {:induction false} DeliveredIs(p: Parser, tail: string, chunks: seq<string>, cap: nat) returns (n: nat)
    requires Between(p) && Unfinished(tail) && CutsFit(p, tail, chunks, cap) && !Sound(tail + Concat(chunks))
    ensures n <= |chunks| && !Sound(tail + Concat(chunks[..n]))
    ensures Delivered(p, tail, chunks, cap) == Process(p, tail + Concat(chunks[..n]), cap).events
    decreases |chunks|
  {
    hide First, Process, EndFits, Between, Unfinished, Sound;
    if chunks == [] {
      assert tail + "" == tail;
      UnfinishedIsSound(tail);
    } else {
      var a := tail + chunks[0];
      AfterChunk(p, a, cap);
      var first := Process(p, a, cap);
      var m := 0;
      assert Concat([]) == "" && a + "" == a;
      if !first.failed {
        assert tail + Concat(chunks) == a + Concat(chunks[1..]);
        assert |chunks| > 1;
        SoundJoin(p, a, Concat(chunks[1..]), cap);
        m := DeliveredIs(first.parser, first.tail, chunks[1..], cap);
        SoundJoin(p, a, Concat(chunks[1..][..m]), cap);
        ChunksJoin(p, a, Concat(chunks[1..][..m]), cap);
      }
      n := m + 1;
      ConcatFirst(tail, chunks, m);
      assert chunks[1..][..0] == [] && a + "" == a;
    }
  }

  lemma ConcatFirst(tail: string, chunks: seq<string>, m: nat)
    requires m < |chunks|
    ensures tail + Concat(chunks[..m + 1]) == tail + chunks[0] + Concat(chunks[1..][..m])
  {
    assert chunks[..m + 1][1..] == chunks[1..][..m] && chunks[..m + 1][0] == chunks[0];
  }

  lemma UnfinishedIsSound(tail: string)
    requires Unfinished(tail)
    ensures Sound(tail)
  {
    hide First, ValidUpTo;
    ValidUnfolds(tail);
  }

  lemma {:induction false} ConcatPrefix(chunks: seq<string>, n: nat)
    requires n <= |chunks|
    ensures var e := Concat(chunks[..n]); |e| <= |Concat(chunks)| && e == Concat(chunks)[..|e|]
    decreases |chunks|
  {
    if n > 0 {
      ConcatPrefix(chunks[1..], n - 1);
      assert chunks[..n][1..] == chunks[1..][..n - 1] && chunks[..n][0] == chunks[0];
    }
  }

  /** The bytes up to the first that show `s` to be malformed. */
  ghost predicate ShowsFirst(s: string, m: nat) {
    m <= |s| && !Sound(s[..m]) && forall j :: 0 <= j < m ==> Sound(s[..j])
  }

  /** Every malformed stream has such a byte. */
  lemma {:induction false} ShortestUnsound(s: string, k: nat) returns (m: nat)
    requires k <= |s| && !Sound(s[..k])
    ensures ShowsFirst(s, m)
  {
    if j :| 0 <= j < k && !Sound(s[..j]) {
      m := ShortestUnsound(s, j);
    } else {
      m := k;
    }
  }

  /** Ends that fit compose. */
  lemma {:induction false} EndFitsJoin(p: Parser, a: string, b: string, cap: nat)
    requires Between(p) && EndFits(p, a, cap)
    requires var first := Process(p, a, cap); EndFits(first.parser, first.tail + b, cap)
    ensures EndFits(p, a + b, cap)
    decreases |a|
  {
    hide First, ValidUpTo, Process, Feed, FeedPrefix, Overflows, Between, Rest;
    ProcessUnfolds(p, a, cap);
    if Sound(a) {
      var t := Rest(a) + b;
      ValidSplits(a, b);
      SoundThenAny(p, a, b, cap);
      if Sound(t) {
        OverflowSplits(p, a, b, cap);
      } else {
        assert PastBad(a + b) == PastBad(t);
      }
    } else {
      SamePrefix(p, a, b, cap);
      BadStays(a, b);
      UnsoundStays(a, b);
      assert PastBad(a + b) == PastBad(a) + b;
      FeedStaysBetween(p, a, cap);
      EndFitsJoin(FeedPrefix(p, a, cap).parser, PastBad(a), b, cap);
    }
  }

  lemma OverflowSplits(p: Parser, a: string, b: string, cap: nat)
    requires Between(p) && Sound(a) && !Overflows(p, a[..ValidUpTo(a)], cap)
    requires var t := Rest(a) + b; !Overflows(FeedPrefix(p, a, cap).parser, t[..ValidUpTo(t)], cap)
    ensures !Overflows(p, (a + b)[..ValidUpTo(a + b)], cap)
  {
    hide Feed, First, ValidUpTo, Overflows, Between, FeedPrefix, WholeBom;
    ValidSplits(a, b);
    var k, t := ValidUpTo(a), Rest(a) + b;
    FeedPrefixIs(p, a, cap);
    PrefixWellFormed(a);
    WellFormedHasWholeBom(a[..k]);
    BetweenWaits(p);
    FeedSplits(p, a[..k], t[..ValidUpTo(t)], cap);
    PrefixJoins(a, b, k, ValidUpTo(t));
  }

  /** The first chunks of cuts that fit make up a prefix that ends with a fit. */
  lemma {:induction false} CutFits(p: Parser, tail: string, chunks: seq<string>, n: nat, cap: nat)
    requires Between(p) && Unfinished(tail) && CutsFit(p, tail, chunks, cap) && 0 < n < |chunks|
    ensures EndFits(p, tail + Concat(chunks[..n]), cap)
    decreases |chunks|
  {
    hide First, Process, EndFits, Between, Unfinished;
    var a := tail + chunks[0];
    ConcatFirst(tail, chunks, n - 1);
    if n == 1 {
      assert chunks[1..][..0] == [] && a + "" == a;
    } else {
      AfterChunk(p, a, cap);
      var first := Process(p, a, cap);
      CutFits(first.parser, first.tail, chunks[1..], n - 1, cap);
      EndFitsJoin(p, a, Concat(chunks[1..][..n - 1]), cap);
    }
  }

  /** A cut after `n` bytes comes after the stream shows to be malformed, and fits. */
  ghost predicate Shows(p: Parser, s: string, n: nat, cap: nat) {
    n <= |s| && !Sound(s[..n]) && EndFits(p, s[..n], cap)
  }

  /** Every cut of a malformed stream that fits delivers the same events if and only if
      none of them comes after a place where a fitting cut shows the stream to be malformed. */
  lemma DeliveredSameIff(p: Parser, s: string, cap: nat)
    requires Between(p) && !Sound(s)
    ensures (forall chunks :: Concat(chunks) == s && CutsFit(p, "", chunks, cap) ==>
               Delivered(p, "", chunks, cap) == Process(p, s, cap).events)
      <==> forall n: nat :: Shows(p, s, n, cap) ==> Process(p, s[..n], cap).events == Process(p, s, cap).events
  {
    hide Process, Between, Sound, Delivered, EndFits, CutsFit, Concat;
    if forall n: nat :: Shows(p, s, n, cap) ==> Process(p, s[..n], cap).events == Process(p, s, cap).events {
      forall chunks | Concat(chunks) == s && CutsFit(p, "", chunks, cap)
        ensures Delivered(p, "", chunks, cap) == Process(p, s, cap).events
      {
        var n := DeliveredAt(p, s, chunks, cap);
        assert s[..|s|] == s;
      }
    } else {
      var n: nat :| Shows(p, s, n, cap) && Process(p, s[..n], cap).events != Process(p, s, cap).events;
      TwoChunks(p, s, n, cap);
      var chunks := [s[..n], s[n..]];
      assert Concat(chunks) == s && CutsFit(p, "", chunks, cap);
    }
  }

  /** What fitting cuts deliver is what some prefix holds that shows the stream to be malformed. */
  lemma DeliveredAt(p: Parser, s: string, chunks: seq<string>, cap: nat) returns (n: nat)
    requires Between(p) && !Sound(s) && Concat(chunks) == s && CutsFit(p, "", chunks, cap)
    ensures n <= |s| && Delivered(p, "", chunks, cap) == Process(p, s[..n], cap).events
    ensures Shows(p, s, n, cap) || n == |s|
  {
    hide Process, Between, Delivered, First, Sound, EndFits, CutsFit;
    NothingIsUnfinished();
    assert "" + s == s && chunks[..0] == [] && Concat([]) == "";
    var k := DeliveredIs(p, "", chunks, cap);
    var e := Concat(chunks[..k]);
    ConcatPrefix(chunks, k);
    n := |e|;
    assert "" + e == e == s[..n];
    if k == |chunks| {
      assert chunks[..k] == chunks;
    } else {
      UnfinishedIsSound("");
      CutFits(p, "", chunks, k, cap);
    }
  }

  lemma NothingIsUnfinished()
    ensures Unfinished("")
  {
  }

  /** Where the cut right after the byte that shows the stream to be malformed fits, that
      one cut decides. */
  lemma FirstCutDecides(p: Parser, s: string, cap: nat) returns (m: nat)
    requires Between(p) && !Sound(s)
    ensures ShowsFirst(s, m)
    ensures EndFits(p, s[..m], cap) ==>
      (Process(p, s[..m], cap).events == Process(p, s, cap).events
       <==> forall chunks :: Concat(chunks) == s && CutsFit(p, "", chunks, cap) ==>
              Delivered(p, "", chunks, cap) == Process(p, s, cap).events)
  {
    hide Process, Between, Sound, Delivered, EndFits, CutsFit, Concat;
    assert s[..|s|] == s;
    m := ShortestUnsound(s, |s|);
    DeliveredSameIff(p, s, cap);
    if EndFits(p, s[..m], cap) {
      assert Shows(p, s, m, cap);
      forall n: nat | Shows(p, s, n, cap) && Process(p, s[..m], cap).events == Process(p, s, cap).events
        ensures Process(p, s[..n], cap).events == Process(p, s, cap).events
      {
        assert m <= n;
        MoreBytesMoreEvents(p, s, m, n, cap);
        MoreBytesMoreEvents(p, s, n, |s|, cap);
      }
    }
  }

  /** Later bytes only add events. */
  lemma MoreBytesMoreEvents(p: Parser, s: string, m: nat, n: nat, cap: nat)
    requires Between(p) && m <= n <= |s| && EndFits(p, s[..m], cap)
    ensures Begins(Process(p, s[..m], cap).events, Process(p, s[..n], cap).events)
  {
    hide Process, EndFits, Between;
    ChunksJoin(p, s[..m], s[m..n], cap);
    assert s[..m] + s[m..n] == s[..n];
  }

  lemma TwoChunks(p: Parser, s: string, m: nat, cap: nat)
    requires Between(p) && m <= |s| && !Sound(s[..m]) && EndFits(p, s[..m], cap)
    ensures Concat([s[..m], s[m..]]) == s && CutsFit(p, "", [s[..m], s[m..]], cap)
    ensures Delivered(p, "", [s[..m], s[m..]], cap) == Process(p, s[..m], cap).events
  {
    hide Process, Between, Sound, EndFits, Concat, CutsFit, Delivered;
    ConcatTwo(s[..m], s[m..]);
    assert s[..m] + s[m..] == s && "" + s[..m] == s[..m];
    AfterChunk(p, s[..m], cap);
    DeliveredFirst(p, s[..m], s[m..], cap);
    CutsFitTwo(p, s[..m], s[m..], cap);
  }

  lemma ConcatTwo(x: string, y: string)
    ensures Concat([x, y]) == x + y
  {
    assert [x, y][1..] == [y] && [y][1..] == [];
    assert Concat([y]) == y + "" == y;
  }

  lemma DeliveredFirst(p: Parser, x: string, y: string, cap: nat)
    requires Process(p, "" + x, cap).failed
    ensures Delivered(p, "", [x, y], cap) == Process(p, "" + x, cap).events
  {
    hide Process;
  }

  lemma CutsFitTwo(p: Parser, x: string, y: string, cap: nat)
    requires EndFits(p, "" + x, cap)
    ensures CutsFit(p, "", [x, y], cap)
  {
    hide Process, EndFits;
    assert |[x, y][1..]| == 1;
  }

  /** The cut does show: with a bad byte in front, one chunk delivers the event behind it and two do not. */
  lemma CutShows(cap: nat)
    ensures var bad, text := ['\U{FF}'], "data\n\n";
      && Delivered(NEW_PARSER, "", [bad + text], cap) == [DEFAULT_EVENT]
      && Delivered(NEW_PARSER, "", [bad, text], cap) == []
  {
    var bad, text := ['\U{FF}'], "data\n\n";
    hide Process;
    BadByte(bad, "", cap);
    BadByte(bad, text, cap);
    TextRead(cap);
    TailWaits(NEW_PARSER, "", cap);
    assert bad + "" == bad == "" + bad && "" + (bad + text) == bad + text;
    assert [bad, text][0] == bad && [bad + text][0] == bad + text;
  }

  lemma TextRead(cap: nat)
    ensures Process(NEW_PARSER, "data\n\n", cap).events == [DEFAULT_EVENT]
  {
    hide Feed, ValidUpTo, First, Process;
    var text := "data\n\n";
    AsciiText(text);
    ProcessUnfolds(NEW_PARSER, text, cap);
    OneEvent(cap);
    assert text[..|text|] == text;
  }

  lemma BadByte(bad: string, text: string, cap: nat)
    requires bad == ['\U{FF}']
    ensures var more := Process(NEW_PARSER, text, cap);
      Process(NEW_PARSER, bad + text, cap) == Chunked(more.parser, more.events, more.tail, true)
  {
    var s := bad + text;
    assert First(s) == Bad(1);
    hide First, Feed;
    ValidUnfolds(s);
    ProcessUnfolds(NEW_PARSER, s, cap);
    assert s[1..] == text;
    var more := Process(NEW_PARSER, text, cap);
    assert [] + more.events == more.events;
  }

  lemma {:induction false} AsciiText(s: string)
    requires forall i :: 0 <= i < |s| ==> s[i] as int < 0x80
    ensures ValidUpTo(s) == |s| && Rest(s) == ""
  {
    ValidUnfolds(s);
    if s != "" { AsciiText(s[1..]); }
  }

  lemma OneEvent(cap: nat)
    ensures Feed(NEW_PARSER, "data\n\n", cap).events == [DEFAULT_EVENT]
  {
    hide Drain, ProcessLine, NextLine;
    var r := Reading(DEFAULT_EVENT, false);
    var full := ProcessLine("data", r, cap);
    BareData(r, cap);
    PlainLine("data", "\n", r, cap);
    OneBlank(full, cap);
    assert "data" + "\n" + "\n" == "data\n\n" == "" + "data\n\n";
    assert "data\n\n"[..3][0] == 'd';
    assert [] + Emitted(full) == Emitted(full);
  }

  lemma BareData(r: Reading, cap: nat)
    requires r == Reading(DEFAULT_EVENT, false)
    ensures Emitted(ProcessLine("data", r, cap)) == [DEFAULT_EVENT]
  {
    NoColon("data");
    assert ProcessLine("data", r, cap) == AppendData(r, "", cap);
  }
}
