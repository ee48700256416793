/** `sanitize_for_fs`: file-system names made of the alphanumeric runs of a string. */
module Sanitize {

  /** `is_ascii_alphanumeric` */
  predicate Alnum(c: char) {
    '0' <= c <= '9' || 'A' <= c <= 'Z' || 'a' <= c <= 'z'
  }

  /** The maximal alphanumeric runs, in order. */
  function Runs(s: string): seq<string> {
    if s == [] then []
    else
      var rest := Runs(s[1..]);
      if !Alnum(s[0]) then rest
      else if |s| > 1 && Alnum(s[1]) && rest != [] then [[s[0]] + rest[0]] + rest[1..]
      else [[s[0]]] + rest
  }

  function Join(runs: seq<string>): string {
    if runs == [] then "" else if |runs| == 1 then runs[0] else runs[0] + "_" + Join(runs[1..])
  }

  /** Only letters, digits and single inner underscores. */
  ghost predicate Normal(s: string) {
    && (forall i :: 0 <= i < |s| ==> Alnum(s[i]) || s[i] == '_')
    && (s != [] ==> s[0] != '_' && s[|s| - 1] != '_')
    && forall i :: 0 <= i < |s| - 1 ==> !(s[i] == '_' && s[i + 1] == '_')
  }

  // ---- the steps of the function ----

  function Marked(s: string): string {
    if s == [] then [] else [if Alnum(s[0]) then s[0] else '_'] + Marked(s[1..])
  }

  /** `contains("__")` */
  predicate Doubled(s: string) {
    exists i :: 0 <= i < |s| - 1 && s[i] == '_' && s[i + 1] == '_'
  }

  /** `replace("__", "_")`: non-overlapping, from the left. */
  function Halved(s: string): string {
    if |s| < 2 then s
    else if s[0] == '_' && s[1] == '_' then "_" + Halved(s[2..])
    else [s[0]] + Halved(s[1..])
  }

  function TrimLeft(s: string): string { if s != [] && s[0] == '_' then TrimLeft(s[1..]) else s }

  function TrimRight(s: string): string { if s != [] && s[|s| - 1] == '_' then TrimRight(s[..|s| - 1]) else s }

  method SanitizeForFs(input: string) returns (r: string)
    ensures r == Join(Runs(input))
  {
    var out := "";
    for i := 0 to |input|
      invariant out == Marked(input[..i])
    {
      MarkedAppend(input[..i], [input[i]]);
      assert input[..i + 1] == input[..i] + [input[i]];
      assert [input[i]][1..] == [];
      if Alnum(input[i]) { out := out + [input[i]]; } else { out := out + ['_']; }
    }
    assert input[..|input|] == input;
    MarkedRuns(input);
    MarkedPlain(input);
    while Doubled(out)
      invariant Runs(out) == Runs(input) && Plain(out)
      decreases |out|
    {
      HalvedRuns(out);
      HalvedPlain(out);
      HalvedShrinks(out);
      out := Halved(out);
    }
    TrimmedNormal(out);
    r := TrimRight(TrimLeft(out));
    NormalIsJoin(r);
  }

  // ---- what the runs are ----

  /** The ASCII codes of digits, capitals and small letters. */
  predicate AsciiCode(c: char) {
    var n := c as int;
    48 <= n <= 57 || 65 <= n <= 90 || 97 <= n <= 122
  }

  /** A word of letters and digits is its own only run. */
  lemma {:induction false} RunsOfWord(w: string)
    requires w != "" && forall i :: 0 <= i < |w| ==> AsciiCode(w[i])
    ensures Runs(w) == [w]
  {
    assert AsciiCode(w[0]) && [w[0]] + w[1..] == w;
    if |w| > 1 {
      assert AsciiCode(w[1]) && Alnum(w[1]);
      RunsOfWord(w[1..]);
    } else {
      assert Runs(w[1..]) == [] && w == [w[0]];
    }
  }

  /** Any other character separates the runs before it from those after it. */
  lemma {:induction false} RunsSplit(a: string, c: char, b: string)
    requires !AsciiCode(c)
    ensures Runs(a + [c] + b) == Runs(a) + Runs(b)
    decreases |a|
  {
    var s := a + [c] + b;
    if a == "" {
      assert s[0] == c && s[1..] == b;
    } else {
      RunsSplit(a[1..], c, b);
      RunsHead(a[1..]);
      assert s[0] == a[0] && s[1..] == a[1..] + [c] + b;
      assert s[1] == if |a| > 1 then a[1] else c;
    }
  }

  // ---- runs survive every step ----

  ghost predicate Plain(s: string) { forall i :: 0 <= i < |s| ==> Alnum(s[i]) || s[i] == '_' }

  lemma {:induction false} MarkedAppend(a: string, b: string)
    ensures Marked(a + b) == Marked(a) + Marked(b)
  {
    if a == [] {
      assert a + b == b;
    } else {
      MarkedAppend(a[1..], b);
      assert (a + b)[1..] == a[1..] + b;
    }
  }

  lemma {:induction false} MarkedRuns(s: string)
    ensures Runs(Marked(s)) == Runs(s)
  {
    if s != [] { MarkedRuns(s[1..]); }
  }

  lemma {:induction false} MarkedPlain(s: string)
    ensures Plain(Marked(s))
  {
    if s != [] { MarkedPlain(s[1..]); }
  }

  /** A run-starting character begins a run. */
  lemma RunsHead(s: string)
    ensures s != [] && Alnum(s[0]) ==> Runs(s) != [] && Runs(s)[0] != []
  {
  }

  lemma {:induction false} HalvedRuns(s: string)
    ensures Runs(Halved(s)) == Runs(s)
    ensures s != [] ==> Halved(s) != [] && Halved(s)[0] == s[0]
    decreases |s|
  {
    if |s| >= 2 {
      if s[0] == '_' && s[1] == '_' {
        HalvedRuns(s[2..]);
        assert s[1..][1..] == s[2..];
        assert ("_" + Halved(s[2..]))[1..] == Halved(s[2..]);
      } else {
        HalvedRuns(s[1..]);
        assert Halved(s)[1..] == Halved(s[1..]);
      }
    }
  }

  lemma {:induction false} HalvedPlain(s: string)
    requires Plain(s)
    ensures Plain(Halved(s))
    decreases |s|
  {
    if |s| >= 2 {
      if s[0] == '_' && s[1] == '_' { HalvedPlain(s[2..]); } else { HalvedPlain(s[1..]); }
    }
  }

  lemma {:induction false} HalvedShrinks(s: string)
    ensures |Halved(s)| <= |s|
    ensures Doubled(s) ==> |Halved(s)| < |s|
    decreases |s|
  {
    if |s| >= 2 {
      if s[0] == '_' && s[1] == '_' {
        HalvedShrinks(s[2..]);
      } else {
        HalvedShrinks(s[1..]);
        if Doubled(s) {
          var i :| 0 <= i < |s| - 1 && s[i] == '_' && s[i + 1] == '_';
          assert s[1..][i - 1] == '_' && s[1..][i] == '_';
        }
      }
    }
  }

  lemma {:induction false} RunsTrailing(s: string)
    requires s != [] && !Alnum(s[|s| - 1])
    ensures Runs(s[..|s| - 1]) == Runs(s)
  {
    if |s| > 1 {
      RunsTrailing(s[1..]);
      assert s[1..][..|s| - 2] == s[..|s| - 1][1..];
      if |s| == 2 { assert s[..1][1..] == []; }
    }
  }

  lemma {:induction false} TrimLeftRuns(s: string)
    requires Plain(s) && !Doubled(s)
    ensures var t := TrimLeft(s);
      Runs(t) == Runs(s) && Plain(t) && !Doubled(t) && (t != [] ==> t[0] != '_')
  {
    if s != [] && s[0] == '_' {
      assert !Doubled(s[1..]) by {
        forall i | 0 <= i < |s[1..]| - 1 ensures !(s[1..][i] == '_' && s[1..][i + 1] == '_') {
          assert !(s[i + 1] == '_' && s[i + 2] == '_');
        }
      }
      TrimLeftRuns(s[1..]);
    }
  }

  lemma {:induction false} TrimRightRuns(s: string)
    requires Plain(s) && !Doubled(s) && (s != [] ==> s[0] != '_')
    ensures Runs(TrimRight(s)) == Runs(s) && Normal(TrimRight(s))
  {
    if s != [] && s[|s| - 1] == '_' {
      RunsTrailing(s);
      assert !Doubled(s[..|s| - 1]);
      TrimRightRuns(s[..|s| - 1]);
    }
  }

  lemma TrimmedNormal(s: string)
    requires Plain(s) && !Doubled(s)
    ensures Runs(TrimRight(TrimLeft(s))) == Runs(s) && Normal(TrimRight(TrimLeft(s)))
  {
    TrimLeftRuns(s);
    TrimRightRuns(TrimLeft(s));
  }

  lemma JoinHead(c: char, runs: seq<string>)
    requires runs != []
    ensures Join([[c] + runs[0]] + runs[1..]) == [c] + Join(runs)
  {
    var longer := [[c] + runs[0]] + runs[1..];
    assert longer[1..] == runs[1..];
  }

  /** A normal string is its own runs joined by underscores. */
  lemma {:induction false} NormalIsJoin(s: string)
    requires Normal(s)
    ensures s == Join(Runs(s))
    decreases |s|
  {
    if |s| == 1 {
      assert Runs(s[1..]) == [];
    } else if |s| > 1 {
      if s[1] == '_' {
        assert |s| > 2 && s[2] != '_' && !Alnum('_');
        var rest := s[2..];
        forall i | 0 <= i < |rest| - 1 ensures !(rest[i] == '_' && rest[i + 1] == '_') {
          assert !(s[i + 2] == '_' && s[i + 3] == '_');
        }
        NormalIsJoin(rest);
        RunsHead(rest);
        assert s[1..][1..] == rest;
        assert Runs(s) == [[s[0]]] + Runs(rest);
        assert ([[s[0]]] + Runs(rest))[1..] == Runs(rest);
        assert s == [s[0]] + "_" + rest;
      } else {
        var rest := s[1..];
        forall i | 0 <= i < |rest| - 1 ensures !(rest[i] == '_' && rest[i + 1] == '_') {
          assert !(s[i + 1] == '_' && s[i + 2] == '_');
        }
        NormalIsJoin(rest);
        RunsHead(rest);
        JoinHead(s[0], Runs(rest));
        assert s == [s[0]] + rest;
      }
    }
  }

  // ---- consequences ----

  lemma {:induction false} RunsAlnum(s: string)
    ensures forall k :: 0 <= k < |Runs(s)| ==>
      Runs(s)[k] != [] && forall i :: 0 <= i < |Runs(s)[k]| ==> Alnum(Runs(s)[k][i])
  {
    if s != [] { RunsAlnum(s[1..]); }
  }

  lemma {:induction false} JoinNormal(runs: seq<string>)
    requires forall k :: 0 <= k < |runs| ==> runs[k] != [] && forall i :: 0 <= i < |runs[k]| ==> Alnum(runs[k][i])
    ensures Normal(Join(runs))
    ensures runs != [] ==> Join(runs) != []
  {
    if |runs| > 1 {
      JoinNormal(runs[1..]);
      var head, rest := runs[0], Join(runs[1..]);
      var s := Join(runs);
      assert s == head + "_" + rest;
      assert forall i :: 0 <= i < |head| ==> s[i] == head[i];
      assert s[|head|] == '_';
      assert forall i :: |head| < i < |s| ==> s[i] == rest[i - |head| - 1];
      assert s[|s| - 1] == rest[|rest| - 1];
      assert !Alnum('_');
      forall i | 0 <= i < |s| - 1 ensures !(s[i] == '_' && s[i + 1] == '_') {
        if i > |head| { assert s[i] == rest[i - |head| - 1] && s[i + 1] == rest[i - |head|]; }
      }
    } else if |runs| == 1 {
      assert !Alnum('_');
    }
  }

  /** The result has no leading, trailing or doubled underscore, and sanitising it again changes nothing. */
  lemma SanitizedIsNormalAndStable(input: string)
    ensures Normal(Join(Runs(input)))
    ensures Join(Runs(Join(Runs(input)))) == Join(Runs(input))
  {
    RunsAlnum(input);
    JoinNormal(Runs(input));
    NormalIsJoin(Join(Runs(input)));
  }
}
