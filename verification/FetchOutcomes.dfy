/** What the rows, the order and the counters of a fetch report mean, in terms of what
    fetching, detecting and probing did. */
module FetchOutcomes {
  import opened FetchQueue
  import opened FetchReports
  import opened Sequences
  import opened Sorting
  import opened Text
  import opened Wrappers

  /** The entrypoint and root that were probed, if any were. */
  ghost function Probed(w: World, item: Item): Option<(string, Root)> {
    match w.fetch(item)
    case Err(_) => None
    case Ok((_, root)) =>
      match w.detect(item, root).entrypoint
      case None => None
      case Some(entry) => if w.noProbe then None else Some((entry, root))
  }

  /** Which fetch state a candidate ends in, and what is known of its files. */
  lemma FetchOutcome(w: World, item: Item)
    ensures var r, f := ProcessSpec(w, item), w.fetch(item);
      && r.id == item.id && (forall n :: r.rank == Some(n) <==> item.id in w.rankMap && w.rankMap[item.id] == n)
      && (r.fetchState == Failed <==> f.Err?) && (r.fetchState == Cached <==> f.Ok? && f.value.0)
      && (r.fetchState == Fetched <==> f.Ok? && !f.value.0) && r.fetchState != Skipped
      && (forall e :: r.fetchError == Some(e) <==> f == Err(e))
      && (f.Err? ==> r.entrypoint == None && r.scannedFiles == 0)
      && (f.Ok? ==> var d := w.detect(item, f.value.1);
            && r.entrypoint == d.entrypoint && r.scannedFiles == d.scannedFiles
            && r.entryScore == if d.entrypoint.Some? then d.score else None)
  {
    hide ProbeVerdict;
  }

  /** Which probe state: only a reply of "pass" passes, in any case of letters, and only an
      error that mentions a timeout is one. */
  lemma ProbeOutcome(w: World, item: Item)
    ensures var r, at := ProcessSpec(w, item), Probed(w, item);
      && (r.probeState == NotAttempted <==> at.None?)
      && (at.None? ==> r.probeError == None && r.registered == Registered(0, 0, 0, 0))
      && (at.Some? ==>
            var reply := w.probe(at.value.0, at.value.1);
            && (r.probeState == Pass <==> reply.Ok? && EqIgnoreCase(reply.value.status, "pass"))
            && (r.probeState == Timeout <==> reply.Err? && exists i: nat :: OccursAt(reply.error, "timeout", i))
            && (reply.Err? ==> r.probeError == Some(reply.error) && r.registered == Registered(0, 0, 0, 0))
            && (reply.Ok? ==> r.registered == reply.value.registered
                              && r.probeError == if r.probeState == Pass then None else reply.value.error))
  {
    var at := Probed(w, item);
    if at.Some? && w.probe(at.value.0, at.value.1).Err? {
      ContainsMeans(w.probe(at.value.0, at.value.1).error, "timeout");
    }
    LowerPass();
    hide Contains, Lower;
  }

  lemma LowerPass()
    ensures Lower("pass") == "pass"
  {
  }

  /** The report of a finished run: better ranks first, candidates without a rank last, and
      ids in order between equals. */
  lemma ReportInOrder(c: Config, schedule: seq<Label>)
    requires Legal(c, schedule)
    ensures var report := Report(c, schedule);
      && multiset(report) == multiset(After(c, schedule).results)
      && forall i, j :: 0 <= i < j < |report| ==>
           var a, b := report[i], report[j];
           && (a.rank.Some? && b.rank.Some? ==> a.rank.value <= b.rank.value)
           && (a.rank.None? && b.rank.Some? ==> b.rank.value >= USIZE_MAX)
           && (a.rank == b.rank ==> StrLe(a.id, b.id))
  {
    hide SortBy, StrLe, After, Legal;
    var results, report := After(c, schedule).results, Report(c, schedule);
    ReportComparator();
    SortPermutes(results, ReportLe);
    SortSorts(results, ReportLe);
    forall i, j | 0 <= i < j < |report| ensures ReportLe(report[i], report[j]) { }
  }

  ghost function Where(rows: seq<ProbeResult>, state: FetchState): set<nat> {
    set i: nat | i < |rows| && rows[i].fetchState == state
  }

  ghost function WhereProbed(rows: seq<ProbeResult>, state: ProbeState): set<nat> {
    set i: nat | i < |rows| && rows[i].probeState == state
  }

  /** Each counter is the number of rows in its state. */
  lemma CountersMean(rows: seq<ProbeResult>)
    ensures var n := CountsOf(rows);
      && n.total == |rows| && n.cached == |Where(rows, Cached)|
      && n.fetched == |Where(rows, Fetched)| && n.fetchFailed == |Where(rows, Failed)|
      && n.noEntrypoint == |set i: nat | i < |rows| && rows[i].entrypoint.None?|
      && n.probePass == |WhereProbed(rows, Pass)| && n.probeFail == |WhereProbed(rows, Fail)|
      && n.probeTimeout == |WhereProbed(rows, Timeout)| && n.probeNotAttempted == |WhereProbed(rows, NotAttempted)|
  {
    hide Count, Where, WhereProbed;
    FetchCounted(rows);
    ProbeCounted(rows);
    CountedRows(rows, (r: ProbeResult) => r.entrypoint.None?, set i: nat | i < |rows| && rows[i].entrypoint.None?);
  }

  lemma FetchCounted(rows: seq<ProbeResult>)
    ensures Count(rows, (r: ProbeResult) => r.fetchState == Cached) == |Where(rows, Cached)|
    ensures Count(rows, (r: ProbeResult) => r.fetchState == Fetched) == |Where(rows, Fetched)|
    ensures Count(rows, (r: ProbeResult) => r.fetchState == Failed) == |Where(rows, Failed)|
  {
    hide Count;
    CountedRows(rows, (r: ProbeResult) => r.fetchState == Cached, Where(rows, Cached));
    CountedRows(rows, (r: ProbeResult) => r.fetchState == Fetched, Where(rows, Fetched));
    CountedRows(rows, (r: ProbeResult) => r.fetchState == Failed, Where(rows, Failed));
  }

  lemma ProbeCounted(rows: seq<ProbeResult>)
    ensures Count(rows, (r: ProbeResult) => r.probeState == Pass) == |WhereProbed(rows, Pass)|
    ensures Count(rows, (r: ProbeResult) => r.probeState == Fail) == |WhereProbed(rows, Fail)|
    ensures Count(rows, (r: ProbeResult) => r.probeState == Timeout) == |WhereProbed(rows, Timeout)|
    ensures Count(rows, (r: ProbeResult) => r.probeState == NotAttempted) == |WhereProbed(rows, NotAttempted)|
  {
    hide Count;
    CountedRows(rows, (r: ProbeResult) => r.probeState == Pass, WhereProbed(rows, Pass));
    CountedRows(rows, (r: ProbeResult) => r.probeState == Fail, WhereProbed(rows, Fail));
    CountedRows(rows, (r: ProbeResult) => r.probeState == Timeout, WhereProbed(rows, Timeout));
    CountedRows(rows, (r: ProbeResult) => r.probeState == NotAttempted, WhereProbed(rows, NotAttempted));
  }

  lemma CountedRows(rows: seq<ProbeResult>, f: ProbeResult -> bool, places: set<nat>)
    requires forall i: nat :: i in places <==> i < |rows| && f(rows[i])
    ensures Count(rows, f) == |places|
  {
    CountIsPlaces(rows, f);
    assert Places(rows, f) == places;
  }
}
