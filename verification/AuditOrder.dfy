/** What a scan of the audit log amounts to: a stable sort of the accepted events by month,
    and exactly when pruning by the months that the bounds show loses nothing. */
module AuditOrder {
  import opened Outcomes
  import opened Calendar
  import opened Grouping
  import opened AuditFiles

  // ---------- Expected is a stable sort by month ----------

  /** The scan yields the accepted events, each as often as it was emitted, sorted by month,
      and in emission order within a month. */
  lemma ScanIsStableSort(log: seq<Event>, hit: Event -> bool)
    ensures multiset(Expected(log, hit)) == multiset(Accepted(log, hit))
    ensures |Expected(log, hit)| == |Accepted(log, hit)|
    ensures InGroupOrder(Expected(log, hit), EventKey())
    ensures forall key: nat :: key < END_KEY ==>
              Pick(Expected(log, hit), EventKey(), Always(), key) == Pick(log, EventKey(), hit, key)
  {
    forall e | e in log ensures EventKey()(e) < END_KEY {
      MonthAtValid(e.at);
    }
    StableSort(log, EventKey(), hit, END_KEY);
  }

  // ---------- Pruning by the bounds' own months ----------

  predicate InRange(b: Bound) {
    0 <= BoundTime(b) < END_MINUTE * MICROS_PER_MINUTE
  }

  predicate ValidBounds(f: Filter) {
    (f.start.Some? ==> InRange(f.start.value)) && (f.end.Some? ==> InRange(f.end.value))
  }

  /** The month of the bound in UTC. */
  function UtcKey(b: Bound): nat
    requires InRange(b)
  {
    Key(MonthAt(BoundTime(b)))
  }

  /** The start does not show a later month than UTC, nor the end an earlier one. */
  predicate Faithful(f: Filter)
    requires ValidBounds(f)
  {
    && (f.start.Some? ==> LocalKey(f.start.value) <= UtcKey(f.start.value))
    && (f.end.Some? ==> UtcKey(f.end.value) <= LocalKey(f.end.value))
  }

  lemma LaterMonth(s: Instant, t: Instant)
    requires s <= t
    ensures Key(MonthAt(s)) <= Key(MonthAt(t))
  {
    MonthsMonotone(s, t);
  }

  lemma MatchingIsKept(f: Filter, e: Event)
    requires ValidBounds(f) && Faithful(f) && Matches(f, e)
    ensures Kept(f, KeyOf(e))
  {
    if f.start.Some? {
      LaterMonth(BoundTime(f.start.value), e.at);
    }
    if f.end.Some? {
      LaterMonth(e.at, BoundTime(f.end.value));
    }
  }

  /** With faithful bounds the scan yields exactly the matching events. */
  lemma NothingLost(log: seq<Event>, f: Filter)
    requires ValidBounds(f) && Faithful(f)
    ensures Expected(log, Selected(f)) == Expected(log, Matching(f))
  {
    forall e | e in log ensures Selected(f)(e) == Matching(f)(e) {
      if Matches(f, e) {
        MatchingIsKept(f, e);
      }
    }
    SameGroups(log, EventKey(), Selected(f), Matching(f), END_KEY);
  }

  lemma UtcBound(b: Bound)
    requires b.offset == 0
    ensures BoundTime(b) == b.local && InRange(b) && UtcKey(b) == LocalKey(b)
  {
  }

  /** Bounds in UTC are faithful. */
  lemma UtcBoundsFaithful(f: Filter)
    requires f.start.Some? ==> f.start.value.offset == 0
    requires f.end.Some? ==> f.end.value.offset == 0
    ensures ValidBounds(f) && Faithful(f)
  {
    if f.start.Some? {
      UtcBound(f.start.value);
    }
    if f.end.Some? {
      UtcBound(f.end.value);
    }
  }

  lemma ScanOfOne(e: Event, hit: Event -> bool)
    ensures |Expected([e], hit)| == if hit(e) then 1 else 0
  {
    ScanIsStableSort([e], hit);
    AcceptedOne(e, hit);
  }

  /** A matching event that pruning drops is missing from the scan. */
  lemma DroppedEvent(f: Filter, e: Event)
    requires Matches(f, e) && !Kept(f, KeyOf(e))
    ensures Expected([e], Selected(f)) != Expected([e], Matching(f))
  {
    ScanOfOne(e, Selected(f));
    ScanOfOne(e, Matching(f));
  }

  /** A filter by time only. */
  predicate OnlyBounds(f: Filter, e: Event) {
    Matches(f.(start := None, end := None), e)
  }

  lemma UnfaithfulWitness(f: Filter, template: Event) returns (e: Event)
    requires ValidBounds(f) && !Faithful(f)
    requires f.start.Some? && f.end.Some? ==> BoundTime(f.start.value) <= BoundTime(f.end.value)
    requires forall t: Instant :: OnlyBounds(f, template.(at := t))
    ensures Matches(f, e) && !Kept(f, KeyOf(e))
  {
    var late := f.start.Some? && LocalKey(f.start.value) > UtcKey(f.start.value);
    e := template.(at := if late then BoundTime(f.start.value) else BoundTime(f.end.value));
    assert OnlyBounds(f, e);
  }

  /** For a filter whose other criteria some event can meet at any time inside the window,
      the scan is complete on every log exactly when the bounds are faithful. */
  lemma CompleteIffFaithful(f: Filter, template: Event)
    requires ValidBounds(f)
    requires f.start.Some? && f.end.Some? ==> BoundTime(f.start.value) <= BoundTime(f.end.value)
    requires forall t: Instant :: OnlyBounds(f, template.(at := t))
    ensures (forall log :: Expected(log, Selected(f)) == Expected(log, Matching(f))) <==> Faithful(f)
  {
    if Faithful(f) {
      forall log ensures Expected(log, Selected(f)) == Expected(log, Matching(f)) {
        NothingLost(log, f);
      }
    } else {
      var e := UnfaithfulWitness(f, template);
      DroppedEvent(f, e);
    }
  }
}
