/** Provider-specific failures per extension (`load_provider_compat`), gathered from
    the compatibility report and its event log. A line of the log is blank, does not
    parse, or is an event. Every entry of a list carries the extension id it is filed
    under, so only its provider mode is kept. */
module ProviderCompat {
  import opened Sorting
  import opened Text
  import opened Wrappers

  datatype Failure = Failure(id: string, mode: string)

  datatype Line = Blank | Malformed | Event(id: string, mode: string, status: string)

  type Filed<K, V> = map<K, seq<V>>

  type FailuresByExtension = Filed<string, string>

  datatype EventState<V> = EventState(defaultPass: bool, failModes: set<V>)

  function Clean(s: string): string { Lower(Trim(s)) }

  predicate DefaultPassed(l: Line) {
    l.Event? && Clean(l.mode) == "default" && (Clean(l.status) == "pass" || Clean(l.status) == "passed")
  }

  predicate OtherFailed(l: Line) {
    l.Event? && Clean(l.mode) != "default" && (Clean(l.status) == "fail" || Clean(l.status) == "failed")
  }

  // ---- what should be listed ----

  function Elements<T>(s: seq<T>): set<T> { set x | x in s }

  /** Report modes are lower-cased but not trimmed. */
  function ReportModes(failures: seq<Failure>, id: string): set<string> {
    set f | f in failures && f.id == id :: Lower(f.mode)
  }

  ghost predicate DefaultSeen(lines: seq<Line>, id: string) {
    exists l :: l in lines && DefaultPassed(l) && l.id == id
  }

  function EventModes(lines: seq<Line>, id: string): set<string> {
    set l | l in lines && OtherFailed(l) && l.id == id :: Clean(l.mode)
  }

  /** The modes an extension should be listed with. */
  ghost function Expected(failures: seq<Failure>, lines: seq<Line>, id: string): set<string> {
    ReportModes(failures, id) + if DefaultSeen(lines, id) then EventModes(lines, id) else {}
  }

  /** Exactly the extensions with an expected mode are listed, each with exactly its
      expected modes in strictly ascending order. */
  ghost predicate Lists(failures: seq<Failure>, lines: seq<Line>, m: FailuresByExtension) {
    && (forall id :: id in m <==> Expected(failures, lines, id) != {})
    && forall id :: id in m ==> StrictlyAscending(m[id]) && Elements(m[id]) == Expected(failures, lines, id)
  }

  // ---- the loops ----

  function Get<K, V>(m: Filed<K, V>, id: K): seq<V> { if id in m then m[id] else [] }

  /** `m` files exactly the modes `want` says, in any order and with repeats. */
  ghost predicate Holds<K(!new), V(!new)>(m: Filed<K, V>, want: K -> set<V>) {
    (forall id :: Elements(Get(m, id)) == want(id)) && forall id :: id in m ==> m[id] != []
  }

  /** `entry(id).or_default().push(mode)` */
  function Push<K, V>(m: Filed<K, V>, id: K, mode: V): Filed<K, V> { m[id := Get(m, id) + [mode]] }

  lemma ElementsPush<V>(list: seq<V>, mode: V)
    ensures Elements(list + [mode]) == Elements(list) + {mode}
  {
  }

  lemma PushHolds<K(!new), V(!new)>(m: Filed<K, V>, id: K, mode: V, want: K -> set<V>, next: K -> set<V>)
    requires Holds(m, want) && forall other :: next(other) == want(other) + if other == id then {mode} else {}
    ensures Holds(Push(m, id, mode), next)
  {
    var list := Get(m, id);
    ElementsPush(list, mode);
    forall other ensures Elements(Get(Push(m, id, mode), other)) == next(other) {
      assert other != id ==> Get(Push(m, id, mode), other) == Get(m, other);
    }
  }

  method FromReport(failures: seq<Failure>) returns (m: FailuresByExtension)
    ensures Holds(m, id => ReportModes(failures, id))
  {
    hide Lower, Push;
    m := map[];
    for i := 0 to |failures|
      invariant Holds(m, id => ReportModes(failures[..i], id))
    {
      ReportStep(failures, i);
      PushHolds(m, failures[i].id, Lower(failures[i].mode),
                id => ReportModes(failures[..i], id), id => ReportModes(failures[..i + 1], id));
      m := Push(m, failures[i].id, Lower(failures[i].mode));
    }
    assert failures[..|failures|] == failures;
  }

  lemma ReportStep(failures: seq<Failure>, i: nat)
    requires i < |failures|
    ensures forall id :: ReportModes(failures[..i + 1], id)
                      == ReportModes(failures[..i], id) + if id == failures[i].id then {Lower(failures[i].mode)} else {}
  {
    hide Lower;
    assert failures[..i + 1] == failures[..i] + [failures[i]];
  }

  ghost predicate StateMatches(state: map<string, EventState<string>>, lines: seq<Line>) {
    && (forall id :: DefaultSeen(lines, id) <==> id in state && state[id].defaultPass)
    && forall id :: EventModes(lines, id) == if id in state then state[id].failModes else {}
  }

  method ReadEvents(lines: seq<Line>) returns (state: map<string, EventState<string>>)
    ensures StateMatches(state, lines)
  {
    hide Clean, DefaultSeen, EventModes;
    NoEvents();
    assert lines[..0] == [];
    state := map[];
    for i := 0 to |lines|
      invariant StateMatches(state, lines[..i])
    {
      LineStep(lines, i);
      match lines[i] {
        case Blank => continue;
        case Malformed => continue;
        case Event(id, rawMode, rawStatus) =>
          var status, mode := Clean(rawStatus), Clean(rawMode);
          var entry := if id in state then state[id] else EventState(false, {});
          if mode == "default" && (status == "pass" || status == "passed") {
            entry := entry.(defaultPass := true);
          } else if mode != "default" && (status == "fail" || status == "failed") {
            entry := entry.(failModes := entry.failModes + {mode});
          }
          state := state[id := entry];
      }
    }
    assert lines[..|lines|] == lines;
  }

  lemma LineStep(lines: seq<Line>, i: nat)
    requires i < |lines|
    ensures forall id ::
      DefaultSeen(lines[..i + 1], id) <==>
        DefaultSeen(lines[..i], id) || (DefaultPassed(lines[i]) && lines[i].id == id)
    ensures forall id :: EventModes(lines[..i + 1], id)
                      == EventModes(lines[..i], id)
                         + if OtherFailed(lines[i]) && lines[i].id == id then {Clean(lines[i].mode)} else {}
  {
    hide Clean;
    assert lines[..i + 1] == lines[..i] + [lines[i]];
    forall id
      ensures DefaultSeen(lines[..i + 1], id) <==>
        DefaultSeen(lines[..i], id) || (DefaultPassed(lines[i]) && lines[i].id == id)
    {
      if DefaultSeen(lines[..i], id) {
        var l :| l in lines[..i] && DefaultPassed(l) && l.id == id;
        assert l in lines[..i + 1];
      }
      assert lines[i] in lines[..i + 1];
    }
  }

  /** A `BTreeSet` is visited in some order; which one does not matter. */
  method AppendModes<V(==)>(list: seq<V>, modes: set<V>) returns (r: seq<V>)
    requires modes != {}
    ensures Elements(r) == Elements(list) + modes && r != []
  {
    hide Elements;
    r := list;
    var left := modes;
    while left != {}
      invariant r != [] || left == modes
      invariant Elements(r) + left == Elements(list) + modes
      decreases |left|
    {
      var mode :| mode in left;
      ElementsPush(r, mode);
      assert Elements(r) + {mode} + (left - {mode}) == Elements(r) + left;
      r := r + [mode];
      left := left - {mode};
    }
  }

  ghost function Promoted<K, V>(state: map<K, EventState<V>>, id: K): set<V> {
    if id in state && state[id].defaultPass then state[id].failModes else {}
  }

  /** Adds the event failures of extensions whose default mode passed. `HashMap` order is arbitrary. */
  method AddEventFailures<K(!new, ==), V(!new, ==)>(
    m: Filed<K, V>, state: map<K, EventState<V>>, ghost want: K -> set<V>)
    returns (r: Filed<K, V>)
    requires Holds(m, want)
    ensures Holds(r, id => want(id) + Promoted(state, id))
  {
    r := m;
    var left := state.Keys;
    FiledStart(m, state, want);
    hide FiledBut;
    while left != {}
      invariant left <= state.Keys && FiledBut(r, state, left, want)
      decreases |left|
    {
      var id :| id in left;
      if state[id].defaultPass && state[id].failModes != {} {
        var list := AppendModes(Get(r, id), state[id].failModes);
        FiledStep(r, state, left, want, id, list);
        r := r[id := list];
      } else {
        FiledSkip(r, state, left, want, id);
      }
      left := left - {id};
    }
    FiledEnd(r, state, want);
  }

  /** Everything is filed but the event failures of `left`. */
  ghost predicate FiledBut<K(!new), V(!new)>(
    m: Filed<K, V>, state: map<K, EventState<V>>, left: set<K>, want: K -> set<V>)
  {
    && (forall id :: Elements(Get(m, id)) == want(id) + if id in left then {} else Promoted(state, id))
    && forall id :: id in m ==> m[id] != []
  }

  lemma FiledStart<K(!new), V(!new)>(m: Filed<K, V>, state: map<K, EventState<V>>, want: K -> set<V>)
    requires Holds(m, want)
    ensures FiledBut(m, state, state.Keys, want)
  {
    hide Elements, Get;
  }

  lemma FiledEnd<K(!new), V(!new)>(m: Filed<K, V>, state: map<K, EventState<V>>, want: K -> set<V>)
    requires FiledBut(m, state, {}, want)
    ensures Holds(m, id => want(id) + Promoted(state, id))
  {
    hide Elements, Get;
  }

  lemma FiledSkip<K(!new), V(!new)>(
    m: Filed<K, V>, state: map<K, EventState<V>>, left: set<K>, want: K -> set<V>, id: K)
    requires FiledBut(m, state, left, want) && id in left && Promoted(state, id) == {}
    ensures FiledBut(m, state, left - {id}, want)
  {
    hide Elements, Get;
  }

  lemma FiledStep<K(!new), V(!new)>(
    m: Filed<K, V>, state: map<K, EventState<V>>, left: set<K>, want: K -> set<V>, id: K, list: seq<V>)
    requires FiledBut(m, state, left, want) && id in left && list != []
    requires Elements(list) == Elements(Get(m, id)) + Promoted(state, id)
    ensures FiledBut(m[id := list], state, left - {id}, want)
  {
    hide Elements;
    forall other ensures Get(m[id := list], other) == if other == id then list else Get(m, other) { }
  }

  /** `sort_by` then `dedup_by` on every list. */
  method Tidy(m: FailuresByExtension) returns (r: FailuresByExtension)
    ensures r.Keys == m.Keys && forall id :: id in m ==> r[id] == SortDedup(m[id])
  {
    hide SortDedup;
    r := m;
    var left := m.Keys;
    while left != {}
      invariant left <= m.Keys == r.Keys
      invariant forall id :: id in m ==> r[id] == if id in left then m[id] else SortDedup(m[id])
      decreases |left|
    {
      var id :| id in left;
      r := r[id := SortDedup(r[id])];
      left := left - {id};
    }
  }

  function OrEmpty<T>(o: Option<seq<T>>): seq<T> { if o.Some? then o.value else [] }

  /** `load_provider_compat`: either input may be missing. */
  method LoadProviderCompat(report: Option<seq<Failure>>, events: Option<seq<Line>>) returns (m: FailuresByExtension)
    ensures Lists(OrEmpty(report), OrEmpty(events), m)
  {
    hide ReportModes, EventModes, DefaultSeen, SortDedup;
    var failures, lines := OrEmpty(report), OrEmpty(events);
    var filed := FromReport(failures);
    var state := map[];
    NoEvents();
    if events.Some? {
      state := ReadEvents(lines);
    }
    filed := AddEventFailures(filed, state, id => ReportModes(failures, id));
    m := Tidy(filed);
    TidyLists(failures, lines, state, filed, m);
  }

  lemma TidyLists(failures: seq<Failure>, lines: seq<Line>, state: map<string, EventState<string>>,
                  filed: FailuresByExtension, m: FailuresByExtension)
    requires StateMatches(state, lines) && Holds(filed, id => ReportModes(failures, id) + Promoted(state, id))
    requires m.Keys == filed.Keys && forall id :: id in filed ==> m[id] == SortDedup(filed[id])
    ensures Lists(failures, lines, m)
  {
    hide ReportModes, EventModes, DefaultSeen, SortDedup, Elements, StrictlyAscending;
    forall id
      ensures id in m <==> Expected(failures, lines, id) != {}
      ensures id in m ==> StrictlyAscending(m[id]) && Elements(m[id]) == Expected(failures, lines, id)
    {
      assert Elements(Get(filed, id)) == Expected(failures, lines, id);
      TidyOne(Get(filed, id));
    }
  }

  lemma TidyOne(list: seq<string>)
    ensures Elements(list) == {} <==> list == []
    ensures StrictlyAscending(SortDedup(list)) && Elements(SortDedup(list)) == Elements(list)
  {
    SortDedupSpec(list);
    if list != [] { assert list[0] in Elements(list); }
  }

  lemma NoEvents()
    ensures StateMatches(map[], [])
  {
  }

  // ---- order independence ----

  lemma ExpectedIgnoresOrder(f: seq<Failure>, g: seq<Failure>, k: seq<Line>, l: seq<Line>, id: string)
    requires multiset(f) == multiset(g) && multiset(k) == multiset(l)
    ensures Expected(f, k, id) == Expected(g, l, id)
  {
    hide Clean, Lower, DefaultPassed, OtherFailed;
    SameElements(f, g);
    SameElements(k, l);
  }

  /** Any rearrangement of the log lines, and of the report's failures, yields the same lists. */
  lemma ListsIgnoreOrder(f: seq<Failure>, g: seq<Failure>, k: seq<Line>, l: seq<Line>,
                         m: FailuresByExtension, n: FailuresByExtension)
    requires multiset(f) == multiset(g) && multiset(k) == multiset(l)
    requires Lists(f, k, m) && Lists(g, l, n)
    ensures m == n
  {
    hide Expected;
    forall id ensures id in m <==> id in n {
      ExpectedIgnoresOrder(f, g, k, l, id);
    }
    forall id | id in m ensures m[id] == n[id] {
      ExpectedIgnoresOrder(f, g, k, l, id);
      SameSets(m[id], n[id]);
    }
  }

  lemma SameSets(a: seq<string>, b: seq<string>)
    requires StrictlyAscending(a) && StrictlyAscending(b) && Elements(a) == Elements(b)
    ensures a == b
  {
    forall x ensures x in a <==> x in b { assert x in Elements(a) <==> x in Elements(b); }
    AscendingUnique(a, b);
  }

  // ---- one mode under two spellings ----

  lemma {:induction false} TrimStartSpec(s: string)
    ensures |TrimStart(s)| <= |s| && TrimStart(s) == s[|s| - |TrimStart(s)|..]
    ensures TrimStart(s) != [] ==> !IsWhitespace(TrimStart(s)[0])
  {
    hide IsWhitespace;
    if s != [] && IsWhitespace(s[0]) { TrimStartSpec(s[1..]); }
  }

  lemma {:induction false} TrimEndSpec(s: string)
    ensures |TrimEnd(s)| <= |s| && TrimEnd(s) == s[..|TrimEnd(s)|]
    ensures TrimEnd(s) != [] ==> !IsWhitespace(TrimEnd(s)[|TrimEnd(s)| - 1])
  {
    hide IsWhitespace;
    if s != [] && IsWhitespace(s[|s| - 1]) { TrimEndSpec(s[..|s| - 1]); }
  }

  /** Nothing to trim. */
  ghost predicate Bare(s: string) {
    s == [] || (!IsWhitespace(s[0]) && !IsWhitespace(s[|s| - 1]))
  }

  lemma TrimOfBare(s: string)
    ensures Bare(s) ==> Trim(s) == s
  {
    hide IsWhitespace;
  }

  lemma TrimBares(s: string)
    ensures Bare(Trim(s)) && (Bare(s) <==> Trim(s) == s)
    ensures exists i, j :: 0 <= i <= j <= |s| && Trim(s) == s[i..j]
  {
    hide IsWhitespace;
    var t := TrimStart(s);
    TrimStartSpec(s);
    TrimEndSpec(t);
    TrimOfBare(s);
    hide TrimStart, TrimEnd;
    var i := |s| - |t|;
    assert Trim(s) == s[i..i + |Trim(s)|];
    assert Trim(s) != [] ==> Trim(s)[0] == t[0];
  }

  lemma LowerOfLower(s: string, i: nat, j: nat)
    requires i <= j <= |s|
    ensures Lower(Lower(s)) == Lower(s) && Lower(Lower(s)[i..j]) == Lower(s)[i..j]
  {
  }

  /** Folding case neither makes nor removes white space. */
  lemma LowerBare(s: string)
    requires Bare(s)
    ensures Bare(Lower(s))
  {
  }

  lemma CleanIsBare(s: string)
    ensures Trim(Clean(s)) == Clean(s)
  {
    hide Trim, Bare;
    TrimBares(s);
    LowerBare(Trim(s));
    TrimBares(Lower(Trim(s)));
  }

  /** A lower-cased mode, trimmed, is its own clean form. */
  lemma TrimmedLowerIsClean(raw: string)
    ensures var x := Trim(Lower(raw)); Clean(x) == x
  {
    var low := Lower(raw);
    TrimBares(low);
    TrimBares(Trim(low));
    hide Trim, Lower;
    var i, j :| 0 <= i <= j <= |low| && Trim(low) == low[i..j];
    SameLength(raw);
    LowerOfLower(raw, i, j);
  }

  lemma SameLength(raw: string)
    ensures |Lower(raw)| == |raw|
  {
  }

  /** Two modes that differ only in surrounding white space. */
  ghost predicate Doubled(modes: set<string>) {
    exists x, y :: x in modes && y in modes && x != y && Trim(x) == Trim(y)
  }

  /** A listed extension shows one mode twice exactly when its expected modes do. */
  lemma ListedTwice(f: seq<Failure>, l: seq<Line>, m: FailuresByExtension, id: string)
    requires Lists(f, l, m) && id in m
    ensures Doubled(Expected(f, l, id))
      <==> exists i, j :: 0 <= i < j < |m[id]| && Trim(m[id][i]) == Trim(m[id][j])
  {
    hide Trim, Expected, StrLe;
    assert Elements(m[id]) == Expected(f, l, id);
    TwiceInList(m[id]);
  }

  lemma TwiceInList(list: seq<string>)
    requires StrictlyAscending(list)
    ensures Doubled(Elements(list)) <==> exists i, j :: 0 <= i < j < |list| && Trim(list[i]) == Trim(list[j])
  {
    hide Trim, StrLe;
    if i, j :| 0 <= i < j < |list| && Trim(list[i]) == Trim(list[j]) {
      assert StrLt(list[i], list[j]) && list[i] in Elements(list) && list[j] in Elements(list);
    }
    if Doubled(Elements(list)) {
      var x, y :| x in Elements(list) && y in Elements(list) && x != y && Trim(x) == Trim(y);
      var i :| 0 <= i < |list| && list[i] == x;
      var j :| 0 <= j < |list| && list[j] == y;
      var lo, hi := if i < j then i else j, if i < j then j else i;
      assert lo < hi && Trim(list[lo]) == Trim(list[hi]);
    }
  }

  /** What a report must be like: its modes, once lower-cased, are trimmed unless they
      trim to "default", and no two of them trim alike. */
  ghost predicate WellSpaced(modes: set<string>) {
    && (forall x :: x in modes ==> Trim(x) == x || Trim(x) == "default")
    && forall x, y :: x in modes && y in modes && Trim(x) == Trim(y) ==> x == y
  }

  lemma EventModesClean(l: seq<Line>, id: string, x: string)
    requires x in EventModes(l, id)
    ensures Trim(x) == x && x != "default"
  {
    hide Trim, Clean;
    var line :| line in l && OtherFailed(line) && line.id == id && Clean(line.mode) == x;
    CleanIsBare(line.mode);
  }

  /** A log that adds one failing mode for `id`. */
  function OneFailure(id: string, mode: string): seq<Line> {
    [Event(id, "default", "pass"), Event(id, mode, "fail")]
  }

  lemma OneFailureAdds(id: string, mode: string)
    requires Clean(mode) == mode && mode != "default"
    ensures DefaultSeen(OneFailure(id, mode), id) && mode in EventModes(OneFailure(id, mode), id)
  {
    CleanWords();
    hide Clean;
    var l := OneFailure(id, mode);
    assert DefaultPassed(l[0]) && l[0] in l;
    assert OtherFailed(l[1]) && l[1] in l;
  }

  lemma CleanWords()
    ensures Clean("default") == "default" && Clean("pass") == "pass" && Clean("fail") == "fail" && Clean("a") == "a"
  {
    assert Trim("default") == "default" && Trim("pass") == "pass" && Trim("fail") == "fail" && Trim("a") == "a";
    assert Lower("default") == "default" && Lower("pass") == "pass" && Lower("fail") == "fail" && Lower("a") == "a";
  }

  /** Exactly when no log can make an extension show one mode twice: when the report's
      own modes are well spaced. */
  lemma NeverDoubledIff(f: seq<Failure>, id: string)
    ensures WellSpaced(ReportModes(f, id)) <==> forall l :: !Doubled(Expected(f, l, id))
  {
    hide Trim, Lower, ReportModes, EventModes, DefaultSeen;
    var modes := ReportModes(f, id);
    if WellSpaced(modes) {
      forall l ensures !Doubled(Expected(f, l, id)) {
        forall x | x in EventModes(l, id) ensures Trim(x) == x && x != "default" { EventModesClean(l, id, x); }
      }
    } else if x, y :| x in modes && y in modes && Trim(x) == Trim(y) && x != y {
      assert Doubled(Expected(f, [], id));
    } else {
      var x :| x in modes && Trim(x) != x && Trim(x) != "default";
      ReportModeIsLower(f, id, x);
      OneFailureAdds(id, Trim(x));
      TrimBares(x);
      TrimBares(Trim(x));
      var l := OneFailure(id, Trim(x));
      assert Trim(x) in Expected(f, l, id) && x in Expected(f, l, id);
      assert Doubled(Expected(f, l, id));
    }
  }

  lemma ReportModeIsLower(f: seq<Failure>, id: string, x: string)
    requires x in ReportModes(f, id)
    ensures Clean(Trim(x)) == Trim(x)
  {
    hide Trim, Lower, Clean;
    var failure :| failure in f && failure.id == id && Lower(failure.mode) == x;
    TrimmedLowerIsClean(failure.mode);
  }

  /** Such a list does come about: the report pads a mode that the log spells plainly. */
  lemma ModeListedTwice(id: string)
    ensures var f, l, m := [Failure(id, " a")], OneFailure(id, "a"), map[id := [" a", "a"]];
      Lists(f, l, m) && Trim(" a") == Trim("a")
  {
    TwoSpellings();
    OnlyThese(id);
    hide Expected, Trim, StrLe, OneFailure;
    var list := [" a", "a"];
    assert Elements(list) == {" a", "a"};
    assert StrictlyAscending(list);
  }

  lemma TwoSpellings()
    ensures Trim(" a") == Trim("a") == "a" && StrLt(" a", "a")
  {
    assert " a"[1..] == "a";
  }

  lemma OnlyThese(id: string)
    ensures Expected([Failure(id, " a")], OneFailure(id, "a"), id) == {" a", "a"}
    ensures forall other :: other != id ==> Expected([Failure(id, " a")], OneFailure(id, "a"), other) == {}
  {
    CleanWords();
    OneFailureAdds(id, "a");
    assert Lower(" a") == " a";
    hide Clean, Lower, OneFailure, ReportModes, EventModes, DefaultSeen;
    var f, l := [Failure(id, " a")], OneFailure(id, "a");
    forall other ensures Expected(f, l, other) == if other == id then {" a", "a"} else {} {
      OneReportMode(id, " a", other);
      OneEventMode(id, "a", other);
    }
  }

  lemma OneReportMode(id: string, mode: string, other: string)
    ensures ReportModes([Failure(id, mode)], other) == if other == id then {Lower(mode)} else {}
  {
    hide Lower;
    var f := [Failure(id, mode)];
    assert f[0] in f;
  }

  lemma OneEventMode(id: string, mode: string, other: string)
    requires Clean(mode) == mode && mode != "default"
    ensures EventModes(OneFailure(id, mode), other) == if other == id then {mode} else {}
  {
    CleanWords();
    hide Clean;
    var l := OneFailure(id, mode);
    assert l[1] in l && OtherFailed(l[1]) && !OtherFailed(l[0]);
  }
}
