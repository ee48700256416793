/** Two loops that group decimal digits in threes: `grouped_decimal` inserts a
    separator before a digit, `format_u64` after one. */
module DigitGrouping {

  /** Groups of three from the right; the first group has what is left. */
  function Grouped(digits: string, sep: char): string {
    var n := |digits|;
    if n <= 3 then digits else Grouped(digits[..n - 3], sep) + [sep] + digits[n - 3..]
  }

  /** `grouped_decimal` */
  method GroupBefore(digits: string, sep: char) returns (grouped: string)
    ensures grouped == Grouped(digits, sep)
  {
    grouped := "";
    for index := 0 to |digits|
      invariant grouped == Laid(digits, index, sep)
    {
      if index > 0 && (|digits| - index) % 3 == 0 {
        grouped := grouped + [sep];
      }
      grouped := grouped + [digits[index]];
    }
    LaidIsGrouped(digits, sep);
  }

  /** `format_u64` */
  method GroupAfter(digits: string, sep: char) returns (out: string)
    ensures out == Grouped(digits, sep)
  {
    out := "";
    for index := 0 to |digits|
      invariant out == Laid(digits, index, sep)
                       + if 0 < index < |digits| && (|digits| - index) % 3 == 0 then [sep] else []
    {
      out := out + [digits[index]];
      var remaining := |digits| - (index + 1);
      if remaining > 0 && remaining % 3 == 0 {
        out := out + [sep];
      }
    }
    LaidIsGrouped(digits, sep);
  }

  /** The first `i` digits with the separators between them. */
  function Laid(digits: string, i: nat, sep: char): string
    requires i <= |digits|
  {
    if i == 0 then ""
    else Laid(digits, i - 1, sep) + (if i > 1 && (|digits| - (i - 1)) % 3 == 0 then [sep] else []) + [digits[i - 1]]
  }

  lemma {:induction false} LaidPrefix(digits: string, i: nat, sep: char)
    requires i + 3 <= |digits|
    ensures Laid(digits, i, sep) == Laid(digits[..|digits| - 3], i, sep)
  {
    if i > 0 { LaidPrefix(digits, i - 1, sep); }
  }

  lemma {:induction false} LaidIsGrouped(digits: string, sep: char)
    ensures Laid(digits, |digits|, sep) == Grouped(digits, sep)
    decreases |digits|
  {
    var n := |digits|;
    if n > 3 {
      LaidPrefix(digits, n - 3, sep);
      LaidIsGrouped(digits[..n - 3], sep);
      assert Laid(digits, n - 2, sep) == Laid(digits, n - 3, sep) + [sep] + [digits[n - 3]];
      assert Laid(digits, n - 1, sep) == Laid(digits, n - 2, sep) + [digits[n - 2]];
      assert Laid(digits, n, sep) == Laid(digits, n - 1, sep) + [digits[n - 1]];
      assert digits[n - 3..] == [digits[n - 3]] + [digits[n - 2]] + [digits[n - 1]];
    } else {
      LaidShort(digits, n, sep);
    }
  }

  lemma {:induction false} LaidShort(digits: string, i: nat, sep: char)
    requires i <= |digits| <= 3
    ensures Laid(digits, i, sep) == digits[..i]
  {
    if i > 0 { LaidShort(digits, i - 1, sep); }
  }

  function Without(s: string, sep: char): string {
    if s == [] then [] else (if s[0] == sep then [] else [s[0]]) + Without(s[1..], sep)
  }

  lemma {:induction false} WithoutAppend(a: string, b: string, sep: char)
    ensures Without(a + b, sep) == Without(a, sep) + Without(b, sep)
  {
    if a == [] {
      assert a + b == b;
    } else {
      WithoutAppend(a[1..], b, sep);
      assert (a + b)[1..] == a[1..] + b && (a + b)[0] == a[0];
      var head := if a[0] == sep then [] else [a[0]];
      assert Without(a, sep) == head + Without(a[1..], sep);
      assert Without(a + b, sep) == head + Without(a[1..] + b, sep);
      hide Without;
      assert head + (Without(a[1..], sep) + Without(b, sep)) == head + Without(a[1..], sep) + Without(b, sep);
    }
  }

  lemma {:induction false} WithoutAbsent(s: string, sep: char)
    requires sep !in s
    ensures Without(s, sep) == s
  {
    if s != [] { WithoutAbsent(s[1..], sep); }
  }

  lemma WithoutSeparator(sep: char)
    ensures Without([sep], sep) == []
  {
    assert [sep][1..] == [];
  }

  /** Removing the separators restores the digits. */
  lemma {:induction false} GroupedRestores(digits: string, sep: char)
    requires sep !in digits
    ensures Without(Grouped(digits, sep), sep) == digits
    decreases |digits|
  {
    var n := |digits|;
    if n > 3 {
      var head, tail := digits[..n - 3], digits[n - 3..];
      GroupedRestores(head, sep);
      WithoutSeparator(sep);
      WithoutAbsent(tail, sep);
      assert Grouped(digits, sep) == Grouped(head, sep) + [sep] + tail;
      hide Without, Grouped;
      WithoutAppend(Grouped(head, sep) + [sep], tail, sep);
      WithoutAppend(Grouped(head, sep), [sep], sep);
      assert digits == head + tail && head + [] == head;
    } else {
      WithoutAbsent(digits, sep);
    }
  }

  lemma {:induction false} GroupedLength(digits: string, sep: char)
    requires digits != ""
    ensures |Grouped(digits, sep)| == |digits| + (|digits| - 1) / 3
    decreases |digits|
  {
    if |digits| > 3 { GroupedLength(digits[..|digits| - 3], sep); }
  }

  /** Counted from the right, exactly every fourth character is a separator: every
      group but the first has three digits, the first has one to three. */
  lemma {:induction false} SeparatorPlaces(digits: string, sep: char, p: nat)
    requires sep !in digits && p < |Grouped(digits, sep)|
    ensures Grouped(digits, sep)[p] == sep <==> (|Grouped(digits, sep)| - p) % 4 == 0
    ensures Grouped(digits, sep)[0] != sep
    decreases |digits|
  {
    var n := |digits|;
    if n > 3 {
      var head := digits[..n - 3];
      var g := Grouped(head, sep);
      SeparatorPlaces(head, sep, if p < |g| then p else 0);
      assert p > |g| ==> Grouped(digits, sep)[p] == digits[n - 3..][p - |g| - 1];
    }
  }

  /** The two layouts differ in the separator only. */
  lemma {:induction false} SameLayout(digits: string, a: char, b: char)
    requires a !in digits && b !in digits
    ensures |Grouped(digits, a)| == |Grouped(digits, b)|
    ensures forall p :: 0 <= p < |Grouped(digits, a)| ==>
      if Grouped(digits, a)[p] == a then Grouped(digits, b)[p] == b else Grouped(digits, a)[p] == Grouped(digits, b)[p]
    decreases |digits|
  {
    var n := |digits|;
    if n > 3 {
      var head := digits[..n - 3];
      SameLayout(head, a, b);
      var g, h := Grouped(digits, a), Grouped(digits, b);
      forall p | 0 <= p < |g| ensures if g[p] == a then h[p] == b else g[p] == h[p] {
        if p < |g| - 4 { assert g[p] == Grouped(head, a)[p] && h[p] == Grouped(head, b)[p]; }
        else if p > |g| - 4 { assert g[p] in digits; }
      }
    }
  }
}
