/** The decoder in front of the parser, against UTF-8 itself: a scalar value is split into
    base-64 digits. What the decoder calls complete, unfinished and bad is what those
    encodings make so, and a chunk is reported malformed exactly if no text begins like it. */
module Utf8 {
  import opened Sse
  import opened SseStream
  import opened SseCutting

  ghost predicate Scalar(c: nat) { c <= 0x10FFFF && !(0xD800 <= c <= 0xDFFF) }

  function Byte(n: nat): char
    requires n < 256
  {
    n as char
  }

  /** The encoding of a scalar value. */
  function Encoded(c: nat): string
    requires Scalar(c)
  {
    if c < 0x80 then [Byte(c)]
    else if c < 0x800 then [Byte(0xC0 + c / 64), Byte(0x80 + c % 64)]
    else if c < 0x1_0000 then [Byte(0xE0 + c / 64 / 64), Byte(0x80 + c / 64 % 64), Byte(0x80 + c % 64)]
    else [Byte(0xF0 + c / 64 / 64 / 64), Byte(0x80 + c / 64 / 64 % 64), Byte(0x80 + c / 64 % 64), Byte(0x80 + c % 64)]
  }

  ghost predicate Scalars(cs: seq<nat>) { forall i :: 0 <= i < |cs| ==> Scalar(cs[i]) }

  /** The encoding of a text. */
  function EncodedText(cs: seq<nat>): string
    requires Scalars(cs)
  {
    if cs == [] then "" else Encoded(cs[0]) + EncodedText(cs[1..])
  }

  // ---- one character ----

  /** Every encoding is read as one character, whatever follows it. */
  lemma EncodedIsComplete(c: nat, rest: string)
    requires Scalar(c)
    ensures First(Encoded(c) + rest) == Complete(|Encoded(c)|)
  {
    var e := Encoded(c);
    assert forall i :: 0 <= i < |e| ==> (e + rest)[i] == e[i];
  }

  /** And every character read is an encoding. */
  lemma CompleteIsEncoded(s: string) returns (c: nat)
    requires s != "" && First(s).Complete?
    ensures Scalar(c) && s[..First(s).len] == Encoded(c)
  {
    var b0 := s[0] as int;
    if b0 < 0x80 {
      c := b0;
    } else if b0 <= 0xDF {
      c := (b0 - 0xC0) * 64 + (s[1] as int - 0x80);
    } else if b0 <= 0xEF {
      c := ThreeBytes(b0 - 0xE0, s[1] as int - 0x80, s[2] as int - 0x80);
    } else {
      c := FourBytes(b0 - 0xF0, s[1] as int - 0x80, s[2] as int - 0x80, s[3] as int - 0x80);
    }
  }

  lemma ThreeBytes(x: nat, y: nat, z: nat) returns (c: nat)
    requires x < 16 && y < 64 && z < 64 && (x == 0 ==> y >= 32) && (x == 13 ==> y < 32)
    ensures Scalar(c) && Encoded(c) == [Byte(0xE0 + x), Byte(0x80 + y), Byte(0x80 + z)]
  {
    c := (x * 64 + y) * 64 + z;
    assert c / 64 == x * 64 + y && c % 64 == z;
  }

  lemma FourBytes(w: nat, x: nat, y: nat, z: nat) returns (c: nat)
    requires w < 5 && x < 64 && y < 64 && z < 64 && (w == 0 ==> x >= 16) && (w == 4 ==> x < 16)
    ensures Scalar(c) && Encoded(c) == [Byte(0xF0 + w), Byte(0x80 + x), Byte(0x80 + y), Byte(0x80 + z)]
  {
    c := ((w * 64 + x) * 64 + y) * 64 + z;
    assert c / 64 == (w * 64 + x) * 64 + y && c % 64 == z;
    assert c / 64 / 64 == w * 64 + x && c / 64 % 64 == y;
  }

  /** Some character begins with `s`. */
  ghost predicate Begun(s: string) { exists c: nat :: Scalar(c) && s <= Encoded(c) }

  /** What the decoder waits for: a character that is begun and not finished. */
  lemma PartialIff(s: string)
    requires s != ""
    ensures First(s).Partial? <==> exists c: nat :: Scalar(c) && s < Encoded(c)
  {
    hide First, Completion, Encoded, Probe;
    if First(s).Partial? {
      CompletionFinishes(s);
      var whole := s + Completion(s);
      var c := CompleteIsEncoded(whole);
      assert whole[..|whole|] == whole;
      assert Completion(s) == "" ==> whole == s;
    }
    forall c: nat | Scalar(c) && s < Encoded(c)
      ensures First(s).Partial?
    {
      var more := Encoded(c)[|s|..];
      assert s + more == Encoded(c) == Encoded(c) + "";
      EncodedIsComplete(c, "");
      if !First(s).Partial? { FirstExtends(s, more); }
    }
  }

  /** What the decoder skips: as many bytes as begin a character, and at least one. */
  lemma BadMeans(s: string)
    requires s != "" && First(s).Bad?
    ensures var n := First(s).len;
      && (n == 1 || Begun(s[..n]))
      && forall m :: n < m <= |s| ==> !Begun(s[..m])
  {
    hide Encoded, Begun;
    var n := First(s).len;
    if n > 1 {
      BadPrefix(s, n);
      PartialBegun(s[..n]);
    }
    forall m | n < m <= |s|
      ensures !Begun(s[..m])
    {
      BadPrefix(s, m);
      BadNotBegun(s[..m]);
    }
  }

  lemma BadPrefix(s: string, m: nat)
    requires s != "" && First(s).Bad? && First(s).len <= m <= |s|
    ensures if First(s).len < m then First(s[..m]) == First(s) else m == 1 || First(s[..m]).Partial?
  {
    var t := s[..m];
    assert t[0] == s[0] && (m > 1 ==> t[1] == s[1]) && (m > 2 ==> t[2] == s[2]) && (m > 3 ==> t[3] == s[3]);
  }

  lemma PartialBegun(s: string)
    requires s != "" && First(s).Partial?
    ensures Begun(s)
  {
    hide First, Encoded;
    PartialIff(s);
    var c: nat :| Scalar(c) && s < Encoded(c);
  }

  lemma BadNotBegun(s: string)
    requires s != "" && First(s).Bad?
    ensures !Begun(s)
  {
    hide First, Encoded;
    forall c: nat | Scalar(c)
      ensures !(s <= Encoded(c))
    {
      EncodedIsComplete(c, "");
      assert Encoded(c) + "" == Encoded(c);
      assert s <= Encoded(c) ==> s + Encoded(c)[|s|..] == Encoded(c);
      if s <= Encoded(c) { FirstExtends(s, Encoded(c)[|s|..]); }
    }
  }

  // ---- texts ----

  /** An encoded text is well formed to its end. */
  lemma {:induction false} TextIsValid(cs: seq<nat>)
    requires Scalars(cs)
    ensures ValidUpTo(EncodedText(cs)) == |EncodedText(cs)| && Rest(EncodedText(cs)) == ""
  {
    hide First, Encoded, ValidUpTo, Rest;
    var s := EncodedText(cs);
    ValidUnfolds(s);
    if cs != [] {
      EncodedIsComplete(cs[0], EncodedText(cs[1..]));
      TextIsValid(cs[1..]);
      assert s[|Encoded(cs[0])|..] == EncodedText(cs[1..]);
    }
  }

  /** The well-formed prefix of any bytes is an encoded text. */
  lemma {:induction false} ValidIsText(s: string) returns (cs: seq<nat>)
    ensures Scalars(cs) && s[..ValidUpTo(s)] == EncodedText(cs)
  {
    hide First, Encoded, ValidUpTo;
    ValidUnfolds(s);
    if s != "" && First(s).Complete? {
      var n := First(s).len;
      var c := CompleteIsEncoded(s);
      var more := ValidIsText(s[n..]);
      cs := [c] + more;
      assert cs[1..] == more;
      assert s[..n + ValidUpTo(s[n..])] == s[..n] + s[n..][..ValidUpTo(s[n..])];
    } else {
      cs := [];
    }
  }

  lemma {:induction false} TextAppend(cs: seq<nat>, c: nat)
    requires Scalars(cs) && Scalar(c)
    ensures Scalars(cs + [c]) && EncodedText(cs + [c]) == EncodedText(cs) + Encoded(c)
  {
    hide Encoded;
    if cs == [] {
      assert [] + [c] == [c] && [c][1..] == [];
      assert EncodedText([c]) == Encoded(c) + "";
    } else {
      TextAppend(cs[1..], c);
      assert (cs + [c])[1..] == cs[1..] + [c];
    }
  }

  /** Nothing is wrong with some bytes if and only if some text begins with them. */
  lemma SoundIff(s: string)
    ensures Sound(s) <==> exists cs :: Scalars(cs) && s <= EncodedText(cs)
  {
    hide First, Encoded, EncodedText, ValidUpTo, Scalars;
    if Sound(s) {
      var cs := SoundIsBegun(s);
    }
    forall cs | Scalars(cs) && s <= EncodedText(cs)
      ensures Sound(s)
    {
      TextIsValid(cs);
      var more := EncodedText(cs)[|s|..];
      assert s + more == EncodedText(cs);
      if !Sound(s) { BadStays(s, more); }
    }
  }

  lemma SoundIsBegun(s: string) returns (cs: seq<nat>)
    requires Sound(s)
    ensures Scalars(cs) && s <= EncodedText(cs)
  {
    hide First, Encoded, EncodedText, ValidUpTo;
    var before := ValidIsText(s);
    assert s == s[..ValidUpTo(s)] + Rest(s);
    cs := before;
    if Rest(s) != "" {
      PartialIff(Rest(s));
      var c: nat :| Scalar(c) && Rest(s) < Encoded(c);
      TextAppend(before, c);
      cs := before + [c];
    }
  }

  /** A chunk is reported malformed exactly if no text begins like it. */
  lemma MalformedIff(p: Parser, s: string, cap: nat)
    ensures Process(p, s, cap).failed <==> !exists cs :: Scalars(cs) && s <= EncodedText(cs)
  {
    hide First, EncodedText, ValidUpTo, Process, Feed, Rest, Scalars;
    SoundIff(s);
    ProcessUnfolds(p, s, cap);
  }

  /** Whole characters, and the beginning of one more, are fed and kept as such. */
  lemma TextIsFed(p: Parser, cs: seq<nat>, tail: string, cap: nat)
    requires Between(p) && Scalars(cs) && (tail == "" || exists c: nat :: Scalar(c) && tail < Encoded(c))
    ensures var fed := Feed(p, EncodedText(cs), cap);
      Process(p, EncodedText(cs) + tail, cap) == Chunked(fed.parser, fed.events, tail, false)
  {
    hide First, Encoded, EncodedText, ValidUpTo, Process, Feed, Rest, Scalars, Between, FeedPrefix;
    var text := EncodedText(cs);
    var s := text + tail;
    TextIsValid(cs);
    ValidSplits(text, tail);
    assert "" + tail == tail;
    ValidUnfolds(tail);
    if tail != "" { PartialIff(tail); }
    ProcessUnfolds(p, s, cap);
    FeedPrefixIs(p, s, cap);
    assert s[..|text|] == text;
  }
}
