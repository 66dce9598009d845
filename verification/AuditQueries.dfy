/** What the single criteria of a filter select (ota_core/audit/reader.py), said of the events
    themselves. */
module AuditQueries {
  import opened Outcomes
  import opened Calendar
  import opened AuditFiles
  import opened AuditOrder
  import opened Grouping

  /** The filter without criteria. */
  function Everything(): Filter {
    Filter(None, None, {}, None, None, None, (e: Event) => true)
  }

  /** A complete scan for a filter that accepts exactly the wanted events yields exactly the
      emitted events that are wanted. */
  lemma ScanYields(log: seq<Event>, f: Filter, wanted: Event -> bool)
    requires ValidBounds(f) && Faithful(f)
    requires forall e :: e in log ==> (Matches(f, e) <==> wanted(e))
    ensures Expected(log, Selected(f)) == Expected(log, wanted)
  {
    NothingLost(log, f);
    SameGroups(log, EventKey(), Matching(f), wanted, END_KEY);
  }

  function OfTrace(trace: string): Event -> bool {
    (e: Event) => e.traceId == trace
  }

  function OfRun(run: string): Event -> bool {
    (e: Event) => e.routineRunId == Some(run)
  }

  function TraceFilter(trace: string): Filter {
    Everything().(traceId := Some(trace))
  }

  function RunFilter(run: string): Filter {
    Everything().(routineRunId := Some(run))
  }

  lemma TraceYields(log: seq<Event>, trace: string)
    ensures Expected(log, Selected(TraceFilter(trace))) == Expected(log, OfTrace(trace))
  {
    UtcBoundsFaithful(TraceFilter(trace));
    ScanYields(log, TraceFilter(trace), OfTrace(trace));
  }

  lemma RunYields(log: seq<Event>, run: string)
    ensures Expected(log, Selected(RunFilter(run))) == Expected(log, OfRun(run))
  {
    UtcBoundsFaithful(RunFilter(run));
    ScanYields(log, RunFilter(run), OfRun(run));
  }

  /** A set of types selects the events of those types; the empty set selects every event. */
  lemma TypesYield(log: seq<Event>, types: set<string>)
    ensures Expected(log, Selected(Everything().(eventTypes := types)))
            == Expected(log, (e: Event) => types == {} || e.eventType in types)
  {
    var f := Everything().(eventTypes := types);
    UtcBoundsFaithful(f);
    ScanYields(log, f, (e: Event) => types == {} || e.eventType in types);
  }

  /** UTC bounds select the events from one to the other, both included. */
  lemma WindowYields(log: seq<Event>, start: Instant, end: Instant)
    ensures Expected(log, Selected(Everything().(start := Some(Bound(start, 0)), end := Some(Bound(end, 0)))))
            == Expected(log, (e: Event) => start <= e.at <= end)
  {
    var f := Everything().(start := Some(Bound(start, 0)), end := Some(Bound(end, 0)));
    UtcBoundsFaithful(f);
    ScanYields(log, f, (e: Event) => start <= e.at <= end);
  }

  /** The text search selects what it accepts. */
  lemma TextYields(log: seq<Event>, text: Event -> bool)
    ensures Expected(log, Selected(Everything().(text := text))) == Expected(log, text)
  {
    var f := Everything().(text := text);
    UtcBoundsFaithful(f);
    ScanYields(log, f, text);
  }

  // ---------- Severities ----------

  /** From the least to the most severe. */
  const SEVERITIES: seq<string> := ["debug", "info", "warn", "error", "critical"]

  /** The place of a severity in that order; any other text counts as the least. */
  function Place(severity: string): nat {
    PlaceFrom(severity, 0)
  }

  function PlaceFrom(severity: string, i: nat): nat
    requires i <= 5
    decreases 5 - i
  {
    if i == 5 then 0 else if SEVERITIES[i] == severity then i else PlaceFrom(severity, i + 1)
  }

  lemma PlacesAreDistinct(i: nat)
    requires i < 5
    ensures Place(SEVERITIES[i]) == i
  {
    assert forall j, k :: 0 <= j < k < 5 ==> SEVERITIES[j] != SEVERITIES[k];
    FoundAt(SEVERITIES[i], 0, i);
  }

  lemma {:induction false} FoundAt(severity: string, from: nat, i: nat)
    requires from <= i < 5 && SEVERITIES[i] == severity
    requires forall j :: from <= j < i ==> SEVERITIES[j] != severity
    ensures PlaceFrom(severity, from) == i
    decreases i - from
  {
    if from < i {
      FoundAt(severity, from + 1, i);
    }
  }

  lemma {:induction false} UnknownIsLeast(severity: string, from: nat)
    requires from <= 5 && forall j :: from <= j < 5 ==> SEVERITIES[j] != severity
    ensures PlaceFrom(severity, from) == 0
    decreases 5 - from
  {
    if from < 5 {
      UnknownIsLeast(severity, from + 1);
    }
  }

  /** The ranks compare as the places do. */
  lemma RankIsPlace(severity: string)
    ensures SeverityRank(severity) == Place(severity)
  {
    if i :| 0 <= i < 5 && SEVERITIES[i] == severity {
      PlacesAreDistinct(i);
    } else {
      UnknownIsLeast(severity, 0);
    }
  }

  /** A least severity selects the events at its place or later in the order, from debug to
      critical, where an unknown severity stands with debug. */
  lemma SeverityYields(log: seq<Event>, least: string)
    ensures Expected(log, Selected(Everything().(severityAtLeast := Some(least))))
            == Expected(log, (e: Event) => Place(least) <= Place(e.severity))
  {
    var f := Everything().(severityAtLeast := Some(least));
    UtcBoundsFaithful(f);
    forall e | e in log ensures Matches(f, e) <==> Place(least) <= Place(e.severity) {
      RankIsPlace(least);
      RankIsPlace(e.severity);
    }
    ScanYields(log, f, (e: Event) => Place(least) <= Place(e.severity));
  }

  /** By name: of two of the five severities, an event of the one passes the other as least
      severity exactly if it does not come before it. */
  lemma NamedSeverities(log: seq<Event>, i: nat, j: nat, e: Event)
    requires i < 5 && j < 5 && e.severity == SEVERITIES[j]
    ensures Matches(Everything().(severityAtLeast := Some(SEVERITIES[i])), e) <==> i <= j
  {
    RankIsPlace(SEVERITIES[i]);
    RankIsPlace(SEVERITIES[j]);
    PlacesAreDistinct(i);
    PlacesAreDistinct(j);
  }

  // ---------- Criteria together ----------

  /** A filter accepts exactly what each of its criteria accepts by itself. */
  lemma CriteriaTogether(f: Filter, e: Event)
    ensures Matches(f, e)
            <==> && Matches(Everything().(start := f.start), e) && Matches(Everything().(end := f.end), e)
                 && Matches(Everything().(eventTypes := f.eventTypes), e)
                 && Matches(Everything().(routineRunId := f.routineRunId), e)
                 && Matches(Everything().(traceId := f.traceId), e)
                 && Matches(Everything().(severityAtLeast := f.severityAtLeast), e)
                 && Matches(Everything().(text := f.text), e)
  {
  }

  // ---------- Bounds with an offset ----------

  /** A bound that shows a time `offset` minutes ahead of UTC accepts what the UTC bound
      `offset` minutes earlier accepts, as start and as end. */
  lemma OffsetMeans(utc: Instant, local: Instant, offset: int, e: Event)
    requires local == utc + offset * 60_000_000
    ensures Matches(Everything().(start := Some(Bound(local, offset))), e)
            <==> Matches(Everything().(start := Some(Bound(utc, 0))), e)
    ensures Matches(Everything().(end := Some(Bound(local, offset))), e)
            <==> Matches(Everything().(end := Some(Bound(utc, 0))), e)
  {
  }
}
