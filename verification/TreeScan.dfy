/** `detect_entrypoint`: find the best-scoring source file of a checked-out package
    with a directory worklist and a cap on scanned files. The directory tree is
    finite; the order in which a directory lists its entries, which files exist as
    source files, and their positive scores are parameters. */
module TreeScan {
  import opened Sequences
  import opened Sorting
  import opened Text
  import opened Wrappers

  datatype Node = File(path: string) | Dir(name: string, readable: bool, entries: seq<Node>)

  /** `should_skip_dir` */
  predicate SkipDir(name: string) {
    name in [".git", "node_modules", "target", "dist", "build", ".next", ".turbo", ".idea", ".vscode"]
  }

  const I32_MIN: int := -0x8000_0000

  /** What the scan asks of a file: is its extension supported, and does it score? */
  datatype Files = Files(supported: string -> bool, score: string -> Option<int>)

  /** `score_source_file` only answers with positive scores. */
  ghost predicate Positive(files: Files) {
    forall p :: files.score(p).Some? ==> files.score(p).value > 0
  }

  // ---- what there is to find ----

  /** The supported files under a node that the scan enters. */
  function Visible(n: Node, supported: string -> bool): seq<string>
    decreases n, 0
  {
    match n
    case File(path) => if supported(path) then [path] else []
    case Dir(_, readable, entries) => if readable then VisibleIn(entries, supported) else []
  }

  function VisibleIn(entries: seq<Node>, supported: string -> bool): seq<string>
    decreases entries, 1
  {
    if entries == [] then []
    else (if entries[0].Dir? && SkipDir(entries[0].name) then [] else Visible(entries[0], supported))
         + VisibleIn(entries[1..], supported)
  }

  /** The supported files under the stacked directories. */
  function Pending(stack: seq<Node>, supported: string -> bool): seq<string> {
    if stack == [] then [] else Pending(stack[..|stack| - 1], supported) + Visible(stack[|stack| - 1], supported)
  }

  /** Directories left to visit, for termination. */
  function Size(n: Node): nat
    decreases n, 0
  {
    match n
    case File(_) => 0
    case Dir(_, _, entries) => 1 + SizeAll(entries)
  }

  function SizeAll(entries: seq<Node>): nat
    decreases entries, 1
  {
    if entries == [] then 0 else Size(entries[0]) + SizeAll(entries[1..])
  }

  /** What one entry of a listing contributes. */
  function VisibleEntry(n: Node, supported: string -> bool): seq<string> {
    if n.Dir? && SkipDir(n.name) then [] else Visible(n, supported)
  }

  lemma VisibleHead(s: seq<Node>, supported: string -> bool)
    requires s != []
    ensures VisibleIn(s, supported) == VisibleEntry(s[0], supported) + VisibleIn(s[1..], supported)
  {
    hide Visible, SkipDir;
  }

  lemma NothingVisible(supported: string -> bool)
    ensures VisibleIn([], supported) == []
  {
  }

  lemma {:induction false} VisibleAppend(a: seq<Node>, b: seq<Node>, supported: string -> bool)
    ensures VisibleIn(a + b, supported) == VisibleIn(a, supported) + VisibleIn(b, supported)
    decreases |a|
  {
    hide VisibleIn, VisibleEntry;
    if a == [] {
      assert a + b == b;
      NothingVisible(supported);
    } else {
      VisibleAppend(a[1..], b, supported);
      VisibleHead(a, supported);
      VisibleHead(a + b, supported);
      assert (a + b)[1..] == a[1..] + b && (a + b)[0] == a[0];
      Associate(VisibleEntry(a[0], supported), VisibleIn(a[1..], supported), VisibleIn(b, supported));
    }
  }

  lemma Associate<T>(x: seq<T>, y: seq<T>, z: seq<T>)
    ensures x + (y + z) == x + y + z
  {
  }

  lemma {:induction false} SizeAppend(a: seq<Node>, b: seq<Node>)
    ensures SizeAll(a + b) == SizeAll(a) + SizeAll(b)
  {
    if a == [] {
      assert a + b == b;
    } else {
      SizeAppend(a[1..], b);
      assert (a + b)[1..] == a[1..] + b;
    }
  }

  /** Taking one entry out of a list. */
  lemma Extract(b: seq<Node>, i: nat, supported: string -> bool)
    requires i < |b|
    ensures multiset(VisibleIn(b, supported))
         == multiset(VisibleIn([b[i]], supported)) + multiset(VisibleIn(b[..i] + b[i + 1..], supported))
    ensures SizeAll(b) == Size(b[i]) + SizeAll(b[..i] + b[i + 1..])
  {
    hide Visible, VisibleIn;
    VisibleAppend(b[..i], b[i + 1..], supported);
    VisibleAppend(b[..i], [b[i]] + b[i + 1..], supported);
    VisibleAppend([b[i]], b[i + 1..], supported);
    SizeAppend(b[..i], b[i + 1..]);
    SizeAppend(b[..i], [b[i]] + b[i + 1..]);
    SizeAppend([b[i]], b[i + 1..]);
    assert SizeAll([b[i]]) == Size(b[i]);
    assert b == b[..i] + ([b[i]] + b[i + 1..]);
  }

  /** The order of a listing changes neither what is visible nor how much there is. */
  lemma {:induction false} ListingIrrelevant(a: seq<Node>, b: seq<Node>, supported: string -> bool)
    requires multiset(a) == multiset(b)
    ensures multiset(VisibleIn(a, supported)) == multiset(VisibleIn(b, supported))
    ensures SizeAll(a) == SizeAll(b)
    decreases |a|
  {
    hide Visible, VisibleIn, Size, SizeAll;
    SameSize(a, b);
    if a != [] {
      var i := FindHead(a, b);
      ListingIrrelevant(a[1..], b[..i] + b[i + 1..], supported);
      Extract(a, 0, supported);
      assert a[..0] + a[1..] == a[1..];
      Extract(b, i, supported);
    } else {
      assert a == b;
    }
  }

  // ---- which files are visible ----

  /** The scan goes into an entry: it is a file, or a directory worth entering. */
  ghost predicate Entered(n: Node) {
    n.Dir? ==>
      n.name !in {".git", "node_modules", "target", "dist", "build", ".next", ".turbo", ".idea", ".vscode"}
  }

  /** Following the entries of `trail`, through readable directories that are entered,
      leads to the file `f`. */
  ghost predicate Leads(n: Node, trail: seq<nat>, f: string)
    decreases |trail|
  {
    if trail == [] then n == File(f)
    else
      && n.Dir? && n.readable && trail[0] < |n.entries|
      && Entered(n.entries[trail[0]]) && Leads(n.entries[trail[0]], trail[1..], f)
  }

  lemma {:induction false} VisibleInWhere(entries: seq<Node>, supported: string -> bool, f: string)
    ensures f in VisibleIn(entries, supported) <==>
      exists i :: 0 <= i < |entries| && Entered(entries[i]) && f in Visible(entries[i], supported)
    decreases |entries|
  {
    hide Visible;
    if entries != [] {
      VisibleInWhere(entries[1..], supported, f);
      if i :| 0 <= i < |entries| && Entered(entries[i]) && f in Visible(entries[i], supported) {
        assert i > 0 ==> entries[1..][i - 1] == entries[i];
      }
      if i :| 0 <= i < |entries[1..]| && Entered(entries[1..][i]) && f in Visible(entries[1..][i], supported) {
        assert entries[i + 1] == entries[1..][i];
      }
    }
  }

  lemma {:induction false} VisibleLeads(n: Node, supported: string -> bool, f: string) returns (trail: seq<nat>)
    requires f in Visible(n, supported)
    ensures supported(f) && Leads(n, trail, f)
    decreases n
  {
    trail := [];
    if n.Dir? {
      VisibleInWhere(n.entries, supported, f);
      var i: nat :| i < |n.entries| && Entered(n.entries[i]) && f in Visible(n.entries[i], supported);
      var rest := VisibleLeads(n.entries[i], supported, f);
      trail := [i] + rest;
      assert trail[1..] == rest;
    }
  }

  lemma {:induction false} LeadsVisible(n: Node, supported: string -> bool, trail: seq<nat>, f: string)
    requires supported(f) && Leads(n, trail, f)
    ensures f in Visible(n, supported)
    decreases |trail|
  {
    if trail != [] {
      LeadsVisible(n.entries[trail[0]], supported, trail[1..], f);
      VisibleInWhere(n.entries, supported, f);
    }
  }

  ghost predicate Reachable(n: Node, f: string) { exists trail: seq<nat> :: Leads(n, trail, f) }

  /** A file is there to find exactly if it is supported and some trail leads to it. */
  lemma VisibleIff(n: Node, supported: string -> bool, f: string)
    ensures f in Visible(n, supported) <==> supported(f) && Reachable(n, f)
  {
    if f in Visible(n, supported) {
      var trail := VisibleLeads(n, supported, f);
      assert Reachable(n, f);
    } else if supported(f) && Reachable(n, f) {
      var trail: seq<nat> :| Leads(n, trail, f);
      LeadsVisible(n, supported, trail, f);
    }
  }

  // ---- the best candidate ----

  /** Hints get a bonus of 100 over scanned files. */
  const HINT_BONUS: int := 100

  ghost predicate Attains(files: Files, hints: seq<string>, done: seq<string>, path: string, best: int) {
    && files.score(path).Some?
    && ((path in hints && files.supported(path) && best == files.score(path).value + 100)
        || (path in done && best == files.score(path).value))
  }

  /** `path` and `best` are right for the hints and files looked at so far: no
      candidate scores more, and one of them scores exactly that. */
  ghost predicate Best(files: Files, hints: seq<string>, done: seq<string>, path: Option<string>, best: int) {
    && (path.None? <==> best == I32_MIN)
    && (forall h :: h in hints && files.supported(h) && files.score(h).Some? ==>
        files.score(h).value + 100 <= best)
    && (forall f :: f in done && files.score(f).Some? ==> files.score(f).value <= best)
    && (path.Some? ==> Attains(files, hints, done, path.value, best))
  }

  /** The best score is determined by which candidates there are. */
  lemma BestUnique(files: Files, hints: seq<string>, f: seq<string>, g: seq<string>,
                   p: Option<string>, q: Option<string>, x: int, y: int)
    requires Positive(files) && multiset(f) == multiset(g)
    requires Best(files, hints, f, p, x) && Best(files, hints, g, q, y)
    ensures x == y && (p.Some? <==> q.Some?)
  {
    SameElements(f, g);
    if p.Some? { assert x <= y; }
    if q.Some? { assert y <= x; }
  }

  // ---- the scan ----

  datatype Detected = Detected(entrypoint: Option<string>, score: Option<int>, scanned: nat)

  function Hinted(packageHints: seq<string>, repoHint: Option<string>): seq<string> {
    SortDedup(packageHints + if repoHint.Some? then [repoHint.value] else [])
  }

  /** The hints are those of the package and of the repository, each once, in order. */
  lemma HintsAre(packageHints: seq<string>, repoHint: Option<string>)
    ensures StrictlyAscending(Hinted(packageHints, repoHint))
    ensures forall h :: h in Hinted(packageHints, repoHint) <==> h in packageHints || repoHint == Some(h)
  {
    hide SortDedup;
    SortDedupSpec(packageHints + if repoHint.Some? then [repoHint.value] else []);
  }

  method ScoreHints(files: Files, hinted: seq<string>) returns (path: Option<string>, best: int)
    requires Positive(files)
    ensures Best(files, hinted, [], path, best)
  {
    path, best := None, I32_MIN;
    for i := 0 to |hinted|
      invariant Best(files, hinted[..i], [], path, best)
    {
      assert hinted[..i + 1] == hinted[..i] + [hinted[i]];
      var hint := hinted[i];
      if !files.supported(hint) { continue; }
      var s := files.score(hint);
      if s.Some? && s.value + HINT_BONUS > best {
        best := s.value + HINT_BONUS;
        path := Some(hint);
      }
    }
    assert hinted[..|hinted|] == hinted;
  }

  /** Files scanned, directories stacked and entries still to list make up the tree. */
  ghost predicate Accounts(
    all: seq<string>, done: seq<string>, stack: seq<Node>, rest: seq<Node>, supported: string -> bool)
  {
    multiset(all) == multiset(done) + multiset(Pending(stack, supported)) + multiset(VisibleIn(rest, supported))
  }

  ghost predicate Dirs(stack: seq<Node>) {
    forall i :: 0 <= i < |stack| ==> stack[i].Dir?
  }

  /** One directory: stack its subdirectories, score its files until the cap. */
  method ScanDir(files: Files, cap: nat, listing: seq<Node>,
                 stack0: seq<Node>, path0: Option<string>, best0: int, scanned0: nat,
                 ghost all: seq<string>, ghost done0: seq<string>, ghost hinted: seq<string>)
    returns (stack: seq<Node>, path: Option<string>, best: int, scanned: nat, ghost done: seq<string>)
    requires Positive(files) && Dirs(stack0) && scanned0 == |done0| <= cap
    requires Accounts(all, done0, stack0, listing, files.supported)
    requires Best(files, hinted, done0, path0, best0)
    ensures Dirs(stack) && scanned == |done| <= cap && Best(files, hinted, done, path, best)
    ensures multiset(done) <= multiset(all)
    ensures scanned < cap ==> Accounts(all, done, stack, [], files.supported)
    ensures SizeAll(stack) <= SizeAll(stack0) + SizeAll(listing)
  {
    hide Visible, VisibleIn, Pending, SizeAll, Size, Best, SkipDir, Positive, Accounts;
    stack, path, best, scanned, done := stack0, path0, best0, scanned0, done0;
    assert listing[0..] == listing;
    for k := 0 to |listing|
      invariant Dirs(stack) && scanned == |done| <= cap && Best(files, hinted, done, path, best)
      invariant Accounts(all, done, stack, listing[k..], files.supported)
      invariant SizeAll(stack) + SizeAll(listing[k..]) <= SizeAll(stack0) + SizeAll(listing)
    {
      var entry := listing[k];
      EntryAccounted(all, done, stack, listing, k, files.supported);
      if entry.Dir? {
        if SkipDir(entry.name) { continue; }
        stack := stack + [entry];
        continue;
      }
      if scanned >= cap { return; }
      if !files.supported(entry.path) { continue; }
      scanned := scanned + 1;
      var s := files.score(entry.path);
      BestStep(files, hinted, done, entry.path, path, best);
      done := done + [entry.path];
      if s.Some? && s.value > best {
        best := s.value;
        path := Some(entry.path);
      }
    }
    assert listing[|listing|..] == [];
    SizeEmpty();
    DoneAccounted(all, done, stack, [], files.supported);
  }

  lemma DoneAccounted(all: seq<string>, done: seq<string>, stack: seq<Node>, rest: seq<Node>, supported: string -> bool)
    requires Accounts(all, done, stack, rest, supported)
    ensures multiset(done) <= multiset(all)
  {
  }

  /** Whatever becomes of an entry, the tree stays accounted for. */
  lemma EntryAccounted(
    all: seq<string>, done: seq<string>, stack: seq<Node>, listing: seq<Node>, k: nat, supported: string -> bool)
    requires k < |listing| && Accounts(all, done, stack, listing[k..], supported)
    ensures multiset(done) <= multiset(all)
    ensures var n := listing[k];
      && (n.Dir? && SkipDir(n.name) ==> Accounts(all, done, stack, listing[k + 1..], supported))
      && (n.Dir? && !SkipDir(n.name) ==> Accounts(all, done, stack + [n], listing[k + 1..], supported))
      && (n.File? && !supported(n.path) ==> Accounts(all, done, stack, listing[k + 1..], supported))
      && (n.File? && supported(n.path) ==> Accounts(all, done + [n.path], stack, listing[k + 1..], supported))
      && SizeAll(listing[k..]) == Size(n) + SizeAll(listing[k + 1..])
      && SizeAll(stack + [n]) == SizeAll(stack) + Size(n)
  {
    hide Visible, VisibleIn, Pending, SizeAll, Size, SkipDir;
    DoneAccounted(all, done, stack, listing[k..], supported);
    TakeEntry(listing, k, supported);
    PushEntry(stack, listing[k], supported);
  }

  lemma BestStep(files: Files, hinted: seq<string>, done: seq<string>, f: string, path: Option<string>, best: int)
    requires Positive(files) && Best(files, hinted, done, path, best)
    ensures files.score(f).Some? && files.score(f).value > best ==>
      Best(files, hinted, done + [f], Some(f), files.score(f).value)
    ensures !(files.score(f).Some? && files.score(f).value > best) ==> Best(files, hinted, done + [f], path, best)
  {
    assert forall g :: g in done + [f] <==> g in done || g == f;
    assert best >= I32_MIN;
  }

  lemma SizeEmpty()
    ensures SizeAll([]) == 0
  {
  }

  lemma TakeEntry(listing: seq<Node>, k: nat, supported: string -> bool)
    requires k < |listing|
    ensures var n := listing[k];
      && VisibleIn(listing[k..], supported)
         == (match n
             case File(path) => if supported(path) then [path] else []
             case Dir(name, _, _) => if SkipDir(name) then [] else Visible(n, supported))
            + VisibleIn(listing[k + 1..], supported)
      && SizeAll(listing[k..]) == Size(n) + SizeAll(listing[k + 1..])
  {
    assert listing[k..][0] == listing[k] && listing[k..][1..] == listing[k + 1..];
  }

  lemma PushEntry(stack: seq<Node>, n: Node, supported: string -> bool)
    ensures Pending(stack + [n], supported) == Pending(stack, supported) + Visible(n, supported)
    ensures SizeAll(stack + [n]) == SizeAll(stack) + Size(n)
  {
    SizeAppend(stack, [n]);
    assert [n][1..] == [] && (stack + [n])[..|stack|] == stack;
  }

  lemma PopDir(stack: seq<Node>, supported: string -> bool)
    requires stack != [] && Dirs(stack)
    ensures var init, d := stack[..|stack| - 1], stack[|stack| - 1];
      && Pending(stack, supported)
          == Pending(init, supported) + (if d.readable then VisibleIn(d.entries, supported) else [])
      && SizeAll(stack) == SizeAll(init) + 1 + SizeAll(d.entries)
  {
    var init, d := stack[..|stack| - 1], stack[|stack| - 1];
    PushEntry(init, d, supported);
    assert stack == init + [d];
  }

  lemma EmptyVisible(supported: string -> bool)
    ensures VisibleIn([], supported) == [] == Pending([], supported)
  {
  }

  /** `detect_entrypoint`. The root is entered whatever its name. It scans every
      supported visible file up to the cap; the answer is the best of the hints and the
      scanned files; and there is an entrypoint exactly when there is a score. */
  method DetectEntrypoint(files: Files, root: Node, packageHints: seq<string>, repoHint: Option<string>, cap: nat,
                          order: seq<Node> -> seq<Node>)
    returns (r: Detected, ghost done: seq<string>)
    requires root.Dir? && Positive(files) && forall l :: multiset(order(l)) == multiset(l)
    ensures r.scanned == |done| && multiset(done) <= multiset(Visible(root, files.supported))
    ensures r.scanned == if |Visible(root, files.supported)| <= cap then |Visible(root, files.supported)| else cap
    ensures |Visible(root, files.supported)| <= cap ==> multiset(done) == multiset(Visible(root, files.supported))
    ensures Best(files, Hinted(packageHints, repoHint), done, r.entrypoint,
                 if r.score.Some? then r.score.value else I32_MIN)
    ensures r.entrypoint.Some? <==> r.score.Some?
    ensures r.score.Some? ==> r.score.value > 0
  {
    hide Visible, VisibleIn, Pending, SizeAll, Size, Hinted, Best, Accounts, Positive;
    var hinted := Hinted(packageHints, repoHint);
    var path, best := ScoreHints(files, hinted);
    ghost var all := Visible(root, files.supported);
    var scanned, stack := 0, [root];
    done := [];
    StartsAccounted(root, files.supported);
    while stack != []
      invariant Dirs(stack) && scanned == |done| <= cap && Accounts(all, done, stack, [], files.supported)
      invariant Best(files, hinted, done, path, best)
      decreases SizeAll(stack)
    {
      var dir := stack[|stack| - 1];
      PopAccounted(all, done, stack, order(dir.entries), files.supported);
      stack := stack[..|stack| - 1];
      if !dir.readable { continue; }
      stack, path, best, scanned, done :=
        ScanDir(files, cap, order(dir.entries), stack, path, best, scanned, all, done, hinted);
      if scanned >= cap { break; }
    }
    AllAccounted(all, done, stack, files.supported);
    ScanConcludes(all, done, cap);
    BestConcludes(files, hinted, done, path, best);
    r := Detected(path, if best == I32_MIN then None else Some(best), scanned);
  }

  lemma StartsAccounted(root: Node, supported: string -> bool)
    ensures Accounts(Visible(root, supported), [], [root], [], supported)
  {
    EmptyVisible(supported);
    PushEntry([], root, supported);
    assert [] + [root] == [root];
  }

  /** Popping a directory leaves its listing to be read. */
  lemma PopAccounted(
    all: seq<string>, done: seq<string>, stack: seq<Node>, listing: seq<Node>, supported: string -> bool)
    requires stack != [] && Dirs(stack) && Accounts(all, done, stack, [], supported)
    requires multiset(listing) == multiset(stack[|stack| - 1].entries)
    ensures var init, d := stack[..|stack| - 1], stack[|stack| - 1];
      && Dirs(init) && Accounts(all, done, init, if d.readable then listing else [], supported)
      && SizeAll(init) + SizeAll(listing) < SizeAll(stack)
  {
    hide Visible, VisibleIn, Pending, SizeAll, Size;
    PopDir(stack, supported);
    EmptyVisible(supported);
    ListingIrrelevant(listing, stack[|stack| - 1].entries, supported);
  }

  lemma AllAccounted(all: seq<string>, done: seq<string>, stack: seq<Node>, supported: string -> bool)
    ensures stack == [] && Accounts(all, done, stack, [], supported) ==> multiset(done) == multiset(all)
  {
    EmptyVisible(supported);
  }

  lemma BestConcludes(files: Files, hinted: seq<string>, done: seq<string>, path: Option<string>, best: int)
    requires Positive(files) && Best(files, hinted, done, path, best)
    ensures path.None? <==> best == I32_MIN
    ensures path.Some? ==> best > 0
  {
  }

  lemma SubSize(a: seq<string>, b: seq<string>)
    requires multiset(a) <= multiset(b)
    ensures |a| <= |b|
    ensures |a| == |b| ==> multiset(a) == multiset(b)
  {
    var rest := multiset(b) - multiset(a);
    assert multiset(b) == multiset(a) + rest;
    assert |multiset(b)| == |multiset(a)| + |rest|;
  }

  /** A scan that took some of the files, and all of them unless it met the cap. */
  lemma ScanConcludes(all: seq<string>, done: seq<string>, cap: nat)
    requires |done| <= cap && multiset(done) <= multiset(all) && (|done| < cap ==> multiset(done) == multiset(all))
    ensures |done| == if |all| <= cap then |all| else cap
    ensures |all| <= cap ==> multiset(done) == multiset(all)
  {
    SubSize(done, all);
    if |done| < cap { SubSize(all, done); }
  }

  /** Two runs that list directories in different orders agree on the score and on
      whether there is an entrypoint, whenever the cap does not cut the scan short. */
  lemma ScoreIgnoresListing(files: Files, root: Node, hinted: seq<string>, cap: nat,
                            a: Detected, b: Detected, f: seq<string>, g: seq<string>)
    requires Positive(files) && |Visible(root, files.supported)| <= cap
    requires multiset(f) == multiset(Visible(root, files.supported)) == multiset(g)
    requires Best(files, hinted, f, a.entrypoint, if a.score.Some? then a.score.value else I32_MIN)
    requires Best(files, hinted, g, b.entrypoint, if b.score.Some? then b.score.value else I32_MIN)
    requires a.score != Some(I32_MIN) && b.score != Some(I32_MIN)
    ensures a.score == b.score && (a.entrypoint.Some? <==> b.entrypoint.Some?)
  {
    BestUnique(files, hinted, f, g, a.entrypoint, b.entrypoint,
               if a.score.Some? then a.score.value else I32_MIN, if b.score.Some? then b.score.value else I32_MIN);
  }
}
