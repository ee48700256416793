/** Facts about sequences shared by the models. */
module Sequences {

  ghost predicate Distinct<T>(s: seq<T>) {
    forall i, j :: 0 <= i < j < |s| ==> s[i] != s[j]
  }

  lemma {:induction false} DistinctOnce<T>(s: seq<T>, x: T)
    requires Distinct(s)
    ensures multiset(s)[x] == if x in s then 1 else 0
  {
    if s != [] {
      var init, last := s[..|s| - 1], s[|s| - 1];
      assert s == init + [last];
      DistinctOnce(init, x);
      assert last !in init;
    }
  }

  lemma PermutedDistinct<T>(a: seq<T>, b: seq<T>)
    requires Distinct(a) && multiset(a) == multiset(b)
    ensures Distinct(b)
  {
    forall i, j | 0 <= i < j < |b| ensures b[i] != b[j] {
      assert b == b[..j] + [b[j]] + b[j + 1..];
      assert b[i] in b[..j];
      DistinctOnce(a, b[j]);
    }
  }

  function Range(n: nat): seq<nat> {
    seq(n, i requires 0 <= i < n => i)
  }

  /** A list of pairwise distinct indexes covering `0..n` is a permutation of it. */
  lemma DistinctCovers(s: seq<nat>, n: nat)
    requires Distinct(s) && (forall k :: 0 <= k < |s| ==> s[k] < n) && forall i :: 0 <= i < n ==> i in s
    ensures multiset(s) == multiset(Range(n)) && |s| == n
  {
    forall i: nat ensures multiset(s)[i] == multiset(Range(n))[i] {
      DistinctOnce(s, i);
      DistinctOnce(Range(n), i);
      assert i < n ==> Range(n)[i] == i;
    }
    assert multiset(s) == multiset(Range(n));
    assert |multiset(s)| == |multiset(Range(n))|;
  }

  lemma {:induction false} SetSize<T>(s: seq<T>)
    requires Distinct(s)
    ensures |set x | x in s| == |s|
  {
    if s != [] {
      var init, last := s[..|s| - 1], s[|s| - 1];
      SetSize(init);
      assert (set x | x in s) == (set x | x in init) + {last};
    }
  }

  /** Distinct indexes below `n` are at most `n`, and fewer if one is missing. */
  lemma DistinctBound(s: seq<nat>, n: nat, missing: nat)
    requires Distinct(s) && forall k :: 0 <= k < |s| ==> s[k] < n
    ensures |s| <= n
    ensures missing < n && missing !in s ==> |s| < n
  {
    SetSize(s);
    SetSize(Range(n));
    var mine, all := set x | x in s, set k | k in Range(n);
    forall x | x in mine ensures x in all { assert Range(n)[x] == x; }
    SubsetSize(mine, all);
    if missing < n && missing !in s {
      assert Range(n)[missing] == missing;
      assert mine <= all - {missing};
      SubsetSize(mine, all - {missing});
    }
  }

  lemma {:induction false} SubsetSize<T>(a: set<T>, b: set<T>)
    requires a <= b
    ensures |a| <= |b|
  {
    assert b == a + (b - a);
  }

  function Map<T, U>(s: seq<T>, f: T -> U): (r: seq<U>)
    ensures |r| == |s|
    ensures forall i :: 0 <= i < |s| ==> r[i] == f(s[i])
  {
    seq(|s|, i requires 0 <= i < |s| => f(s[i]))
  }

  lemma {:induction false} RemoveAt<T>(s: seq<T>, i: nat)
    requires i < |s|
    ensures multiset(s) == multiset(s[..i] + s[i + 1..]) + multiset{s[i]}
  {
    assert s == s[..i] + [s[i]] + s[i + 1..];
  }

  lemma MapRemoveAt<T, U>(s: seq<T>, i: nat, f: T -> U)
    requires i < |s|
    ensures multiset(Map(s, f)) == multiset(Map(s[..i] + s[i + 1..], f)) + multiset{f(s[i])}
  {
    RemoveAt(Map(s, f), i);
    assert Map(s, f)[..i] + Map(s, f)[i + 1..] == Map(s[..i] + s[i + 1..], f);
  }

  lemma MapHead<T, U>(s: seq<T>, f: T -> U)
    requires |s| > 0
    ensures multiset(Map(s, f)) == multiset(Map(s[1..], f)) + multiset{f(s[0])}
  {
    assert Map(s, f) == [f(s[0])] + Map(s[1..], f);
  }

  lemma FindHead<T>(a: seq<T>, b: seq<T>) returns (i: nat)
    requires multiset(a) == multiset(b) && a != []
    ensures i < |b| && b[i] == a[0]
    ensures multiset(a[1..]) == multiset(b[..i] + b[i + 1..])
  {
    assert a[0] in multiset(b);
    i :| 0 <= i < |b| && b[i] == a[0];
    RemoveAt(b, i);
    assert a == [a[0]] + a[1..];
    assert multiset(a[1..]) == multiset(a) - multiset{a[0]};
  }

  /** Applying a function elementwise commutes with rearranging. */
  lemma {:induction false} MapPermutes<T, U>(a: seq<T>, b: seq<T>, f: T -> U)
    requires multiset(a) == multiset(b)
    ensures multiset(Map(a, f)) == multiset(Map(b, f))
    decreases |a|
  {
    assert |multiset(a)| == |multiset(b)|;
    if |a| > 0 {
      var i := FindHead(a, b);
      var rest := b[..i] + b[i + 1..];
      MapPermutes(a[1..], rest, f);
      MapRemoveAt(b, i, f);
      MapHead(a, f);
    } else {
      assert Map(a, f) == Map(b, f);
    }
  }

  /** Number of elements satisfying `p`. */
  function Count<T>(s: seq<T>, p: T -> bool): (n: nat)
    ensures n <= |s|
  {
    if s == [] then 0 else Count(s[..|s| - 1], p) + if p(s[|s| - 1]) then 1 else 0
  }

  /** The positions of the elements satisfying `p`. */
  ghost function Places<T>(s: seq<T>, p: T -> bool): set<nat> { set i: nat | i < |s| && p(s[i]) }

  /** Counting counts positions. */
  lemma {:induction false} CountIsPlaces<T>(s: seq<T>, p: T -> bool)
    ensures Count(s, p) == |Places(s, p)|
  {
    if s != [] {
      var n := |s| - 1;
      CountIsPlaces(s[..n], p);
      assert Places(s, p) == if p(s[n]) then Places(s[..n], p) + {n} else Places(s[..n], p);
    }
  }

  function SumReal(xs: seq<real>): real {
    if xs == [] then 0.0 else xs[0] + SumReal(xs[1..])
  }

  lemma {:induction false} SumRealAppend(a: seq<real>, b: seq<real>)
    ensures SumReal(a + b) == SumReal(a) + SumReal(b)
  {
    if a == [] {
      assert a + b == b;
    } else {
      SumRealAppend(a[1..], b);
      assert (a + b)[1..] == a[1..] + b;
    }
  }

  lemma SumRealEnds(xs: seq<real>)
    ensures xs == [] ==> SumReal(xs) == 0.0
    ensures xs != [] ==> SumReal(xs) == SumReal(xs[..|xs| - 1]) + xs[|xs| - 1]
  {
    if xs != [] {
      var n := |xs| - 1;
      SumRealAppend(xs[..n], [xs[n]]);
      assert xs == xs[..n] + [xs[n]];
      assert SumReal([xs[n]]) == xs[n] by { assert [xs[n]][1..] == []; }
    }
  }

  lemma {:induction false} SumRealPermutes(a: seq<real>, b: seq<real>)
    requires multiset(a) == multiset(b)
    ensures SumReal(a) == SumReal(b)
    decreases |a|
  {
    assert |multiset(a)| == |multiset(b)|;
    if a != [] {
      var i := FindHead(a, b);
      SumRealPermutes(a[1..], b[..i] + b[i + 1..]);
      SumRealAppend(b[..i], b[i + 1..]);
      SumRealAppend(b[..i], [b[i]] + b[i + 1..]);
      assert b == b[..i] + ([b[i]] + b[i + 1..]);
    }
  }
}
