/** What the calls on a scheduler leave behind: a history of events, what it says about
    each job, and which histories the code can produce. */
module JobHistory {
  import opened Outcomes
  import opened Text
  import opened Calendar
  import opened IsoTime
  import opened Cron

  datatype Status = Succeeded | Failed

  /** A row of the table cron_jobs. */
  datatype Row = Row(expression: string, nextFire: string, lastFire: Option<string>, lastStatus: Option<Status>)

  /** A job held in memory, its expression parsed. */
  datatype Job = Job(text: string, expr: Expr)

  /** One run of a callback: the clock before it, the clock after it, and whether it raised. */
  datatype Call = Call(start: Instant, end: Instant, failed: bool)

  datatype Cause =
    | Manual
    | Loop(tick: Instant, minute: nat)   // the clock of the tick, and the due minute it found

  datatype Event =
    | Registered(id: string, expr: Expr, at: Instant, next: Next)
    | Deregistered(id: string)
    | Fired(id: string, cause: Cause, call: Call, next: Next)
    | Restarted

  // ---------- What a history says about one job ----------

  /** The minute stored in a row, with the expression and the clock reading it was computed from. */
  datatype Due = Due(minute: nat, from: Expr, at: Instant)

  datatype Lane = Lane(
    expr: Option<Expr>,    // the job in memory
    due: Option<Due>,      // the row of the table
    stored: bool)          // a call since the registration in memory has written the row

  ghost function LaneOf(h: seq<Event>, id: string): Lane {
    if h == [] then Lane(None, None, false) else LaneAfter(LaneOf(h[..|h| - 1], id), h[|h| - 1], id)
  }

  ghost function LaneAfter(before: Lane, ev: Event, id: string): Lane {
    match ev
    case Restarted => Lane(None, before.due, false)
    case Deregistered(j) => if j == id then Lane(None, None, false) else before
    case Registered(j, e, at, next) =>
      if j != id then before
      else if next.At? then Lane(Some(e), Some(Due(next.minute, e, at)), true)
      else Lane(Some(e), before.due, false)
    case Fired(j, _, call, next) =>
      if j == id && next.At? && before.due.Some? && before.expr.Some?
      then before.(due := Some(Due(next.minute, before.expr.value, call.end)), stored := true)
      else before
  }

  lemma LaneStep(h: seq<Event>, ev: Event, id: string)
    ensures LaneOf(h + [ev], id) == LaneAfter(LaneOf(h, id), ev, id)
  {
    assert (h + [ev])[..|h|] == h;
  }

  ghost function Clock(h: seq<Event>): Instant {
    if h == [] then 0
    else
      match h[|h| - 1]
      case Registered(_, _, at, _) => at
      case Fired(_, _, call, _) => call.end
      case _ => Clock(h[..|h| - 1])
  }

  /** What may happen next: the checks the code makes, and a clock that never runs back. */
  ghost predicate Allowed(h: seq<Event>, ev: Event) {
    match ev
    case Restarted => true
    case Deregistered(id) => LaneOf(h, id).expr.Some?
    case Registered(id, e, at, next) =>
      LaneOf(h, id).expr.None? && Clock(h) <= at && next == NextAfter(e, at)
    case Fired(id, cause, call, next) =>
      var lane := LaneOf(h, id);
      && lane.expr.Some?
      && Clock(h) <= call.start <= call.end
      && next == NextAfter(lane.expr.value, call.end)
      && (cause.Loop? ==>
            && cause.tick <= call.start
            && lane.due.Some?
            && lane.due.value.minute == cause.minute
            && cause.minute < END_MINUTE
            && StartOf(cause.minute) <= cause.tick)
  }

  ghost predicate Legal(h: seq<Event>) {
    h == [] || (Legal(h[..|h| - 1]) && Allowed(h[..|h| - 1], h[|h| - 1]))
  }

  lemma LegalStep(h: seq<Event>, ev: Event)
    ensures Legal(h + [ev]) <==> Legal(h) && Allowed(h, ev)
    ensures Clock(h + [ev]) == if ev.Registered? then ev.at else if ev.Fired? then ev.call.end else Clock(h)
  {
    assert (h + [ev])[..|h|] == h;
  }

  // ---------- The loop of the scheduler ----------

  ghost predicate IsDue(h: seq<Event>, id: string, now: Instant) {
    var due := LaneOf(h, id).due;
    due.Some? && due.value.minute < END_MINUTE && StartOf(due.value.minute) <= now
  }

  /** Only fires of the tick at `now`. */
  ghost predicate TickFires(events: seq<Event>, now: Instant) {
    forall i :: 0 <= i < |events| ==> events[i].Fired? && events[i].cause.Loop? && events[i].cause.tick == now
  }

  ghost predicate FiredOnce(events: seq<Event>) {
    forall i, j :: 0 <= i < j < |events| && events[i].Fired? && events[j].Fired? ==> events[i].id != events[j].id
  }

  /** `_fire_cron` raises: the callback did, or the search for the next minute. */
  predicate Raising(ev: Event) {
    ev.Fired? && (ev.call.failed || !ev.next.At?)
  }

  predicate LoopFire(ev: Event) {
    ev.Fired? && ev.cause.Loop?
  }

  /** The task running `_run_loop` has ended with an exception, which `start` does not mend. */
  ghost predicate Crashed(h: seq<Event>) {
    h != [] && !h[|h| - 1].Restarted?
    && (Crashed(h[..|h| - 1]) || (LoopFire(h[|h| - 1]) && Raising(h[|h| - 1])))
  }

  /** Ticks are run by `_run_loop` alone: none after its task has ended. */
  ghost predicate Supervised(h: seq<Event>) {
    h == [] || (Supervised(h[..|h| - 1]) && (LoopFire(h[|h| - 1]) ==> !Crashed(h[..|h| - 1])))
  }

  lemma LoopStep(h: seq<Event>, ev: Event)
    ensures Crashed(h + [ev]) <==> !ev.Restarted? && (Crashed(h) || (LoopFire(ev) && Raising(ev)))
    ensures Supervised(h + [ev]) <==> Supervised(h) && (LoopFire(ev) ==> !Crashed(h))
  {
    assert (h + [ev])[..|h|] == h;
  }

  /** The fires of a tick end with the one that raised, if one did. */
  ghost predicate EndsWith(events: seq<Event>, raised: bool) {
    && (raised ==> events != [])
    && forall i :: 0 <= i < |events| ==> (Raising(events[i]) <==> raised && i == |events| - 1)
  }

  // ---------- Table and memory against the history ----------

  ghost predicate RowAgrees(rows: map<string, Row>, id: string, due: Option<Due>) {
    && (id in rows <==> due.Some?)
    && (id in rows ==> due.value.minute < END_MINUTE && rows[id].nextFire == Iso(StartOf(due.value.minute)))
  }

  ghost predicate TableAgrees(h: seq<Event>, rows: map<string, Row>) {
    forall id :: RowAgrees(rows, id, LaneOf(h, id).due)
  }

  ghost predicate JobAgrees(jobs: map<string, Job>, id: string, e: Option<Expr>) {
    e == if id in jobs then Some(jobs[id].expr) else None
  }

  ghost predicate MemoryAgrees(h: seq<Event>, jobs: map<string, Job>) {
    forall id :: JobAgrees(jobs, id, LaneOf(h, id).expr)
  }

  /** The table after an event: other rows stay, and the row named is rewritten as the
      history says. */
  lemma TableStep(h: seq<Event>, ev: Event, rows: map<string, Row>, rows': map<string, Row>)
    requires TableAgrees(h, rows)
    requires forall id :: RowAgrees(rows, id, LaneOf(h, id).due) ==>
                            RowAgrees(rows', id, LaneAfter(LaneOf(h, id), ev, id).due)
    ensures TableAgrees(h + [ev], rows')
  {
    forall id ensures RowAgrees(rows', id, LaneOf(h + [ev], id).due) {
      LaneStep(h, ev, id);
      assert RowAgrees(rows, id, LaneOf(h, id).due);
    }
  }

  lemma MemoryStep(h: seq<Event>, ev: Event, jobs: map<string, Job>, jobs': map<string, Job>)
    requires MemoryAgrees(h, jobs)
    requires forall id :: JobAgrees(jobs, id, LaneOf(h, id).expr) ==>
                            JobAgrees(jobs', id, LaneAfter(LaneOf(h, id), ev, id).expr)
    ensures MemoryAgrees(h + [ev], jobs')
  {
    forall id ensures JobAgrees(jobs', id, LaneOf(h + [ev], id).expr) {
      LaneStep(h, ev, id);
      assert JobAgrees(jobs, id, LaneOf(h, id).expr);
    }
  }

  /** The UPDATE of a fire: nothing when the search raised before it, or without a row. */
  function RowsAfterFire(rows: map<string, Row>, id: string, call: Call, next: Next): map<string, Row> {
    if next.At? && next.minute < END_MINUTE && id in rows then
      rows[id := rows[id].(lastFire := Some(Iso(call.start)),
                           lastStatus := Some(if call.failed then Failed else Succeeded),
                           nextFire := Iso(StartOf(next.minute)))]
    else rows
  }

  /** Column by column: the clock reading before the call, what became of it, and the new
      minute; the expression and the other rows stay. */
  lemma FireColumns(rows: map<string, Row>, id: string, call: Call, next: Next)
    requires next.At? && next.minute < END_MINUTE && id in rows
    ensures var after := RowsAfterFire(rows, id, call, next);
            && after.Keys == rows.Keys && after[id].expression == rows[id].expression
            && after[id].lastFire == Some(Iso(call.start)) && after[id].nextFire == Iso(StartOf(next.minute))
            && (call.failed ==> after[id].lastStatus == Some(Failed))
            && (!call.failed ==> after[id].lastStatus == Some(Succeeded))
            && forall j :: j in rows && j != id ==> after[j] == rows[j]
  {
  }

  /** The INSERT OR REPLACE of a registration: nothing when the search raised before it. */
  function RowsAfterRegister(rows: map<string, Row>, id: string, text: string, next: Next): map<string, Row> {
    if next.At? && next.minute < END_MINUTE then rows[id := Row(text, Iso(StartOf(next.minute)), None, None)] else rows
  }

  /** History, memory and table fit together. */
  ghost predicate Consistent(h: seq<Event>, jobs: map<string, Job>, rows: map<string, Row>) {
    Legal(h) && MemoryAgrees(h, jobs) && TableAgrees(h, rows)
  }

  lemma RestartStep(h: seq<Event>, rows: map<string, Row>)
    requires Legal(h) && TableAgrees(h, rows)
    ensures Consistent(h + [Restarted], map[], rows)
  {
    LegalStep(h, Restarted);
    TableStep(h, Restarted, rows, rows);
    forall id ensures JobAgrees(map[], id, LaneOf(h + [Restarted], id).expr) {
      LaneStep(h, Restarted, id);
    }
  }

  lemma RegisterStep(h: seq<Event>, jobs: map<string, Job>, rows: map<string, Row>,
                     id: string, text: string, e: Expr, at: Instant)
    requires Consistent(h, jobs, rows) && id !in jobs && Clock(h) <= at
    ensures var next := NextAfter(e, at);
            Consistent(h + [Registered(id, e, at, next)], jobs[id := Job(text, e)],
                       RowsAfterRegister(rows, id, text, next))
  {
    var ev := Registered(id, e, at, NextAfter(e, at));
    assert JobAgrees(jobs, id, LaneOf(h, id).expr);
    LegalStep(h, ev);
    MemoryStep(h, ev, jobs, jobs[id := Job(text, e)]);
    FoundInRange(e, at);
    TableStep(h, ev, rows, RowsAfterRegister(rows, id, text, ev.next));
  }

  lemma DeregisterStep(h: seq<Event>, jobs: map<string, Job>, rows: map<string, Row>, id: string)
    requires Consistent(h, jobs, rows) && id in jobs
    ensures Consistent(h + [Deregistered(id)], jobs - {id}, rows - {id})
  {
    var ev := Deregistered(id);
    assert JobAgrees(jobs, id, LaneOf(h, id).expr);
    LegalStep(h, ev);
    MemoryStep(h, ev, jobs, jobs - {id});
    TableStep(h, ev, rows, rows - {id});
  }

  lemma FireStep(h: seq<Event>, jobs: map<string, Job>, rows: map<string, Row>, ev: Event)
    requires Consistent(h, jobs, rows) && ev.Fired? && Allowed(h, ev)
    ensures Consistent(h + [ev], jobs, RowsAfterFire(rows, ev.id, ev.call, ev.next))
  {
    FoundInRange(LaneOf(h, ev.id).expr.value, ev.call.end);
    LegalStep(h, ev);
    MemoryStep(h, ev, jobs, jobs);
    forall id ensures RowAgrees(RowsAfterFire(rows, ev.id, ev.call, ev.next), id, LaneOf(h + [ev], id).due) {
      LaneStep(h, ev, id);
      assert RowAgrees(rows, id, LaneOf(h, id).due);
    }
  }

  lemma LoopFireAllowed(h: seq<Event>, jobs: map<string, Job>, rows: map<string, Row>, id: string, now: Instant,
                        call: Call)
    requires Consistent(h, jobs, rows) && id in jobs && IsDue(h, id, now)
    requires Clock(h) <= call.start && now <= call.start <= call.end
    ensures Allowed(h, DueFire(h, jobs[id].expr, id, now, call))
  {
    assert JobAgrees(jobs, id, LaneOf(h, id).expr);
  }

  lemma ManualFireAllowed(h: seq<Event>, jobs: map<string, Job>, rows: map<string, Row>, id: string, call: Call)
    requires Consistent(h, jobs, rows) && id in jobs
    requires Clock(h) <= call.start <= call.end
    ensures Allowed(h, Fired(id, Manual, call, NextAfter(jobs[id].expr, call.end)))
  {
    assert JobAgrees(jobs, id, LaneOf(h, id).expr);
  }

  /** The event of the loop firing a job that the tick at `now` found due. */
  ghost function DueFire(h: seq<Event>, e: Expr, id: string, now: Instant, call: Call): (ev: Event)
    requires IsDue(h, id, now)
    ensures ev.Fired? && ev.id == id && ev.call == call && TickFires([ev], now)
  {
    Fired(id, Loop(now, LaneOf(h, id).due.value.minute), call, NextAfter(e, call.end))
  }

  /** Text comparison in the query selects exactly the rows that are due in time. */
  lemma TextSelectsDue(h: seq<Event>, rows: map<string, Row>, id: string, now: Instant)
    requires TableAgrees(h, rows)
    ensures id in rows && AtMost(rows[id].nextFire, Iso(now)) <==> IsDue(h, id, now)
  {
    assert RowAgrees(rows, id, LaneOf(h, id).due);
    if id in rows {
      IsoAtMost(StartOf(LaneOf(h, id).due.value.minute), now);
    }
  }

  lemma {:induction false} LaneUntouched(h: seq<Event>, events: seq<Event>, id: string)
    requires forall i :: 0 <= i < |events| ==> events[i].Fired? && events[i].id != id
    ensures LaneOf(h + events, id) == LaneOf(h, id)
  {
    if events == [] {
      assert h + events == h;
    } else {
      var init, last := events[..|events| - 1], events[|events| - 1];
      LaneUntouched(h, init, id);
      assert h + events == (h + init) + [last];
      LaneStep(h + init, last, id);
    }
  }

  ghost function FiredIds(events: seq<Event>): (ids: set<string>)
    ensures forall i :: 0 <= i < |events| && events[i].Fired? ==> events[i].id in ids
  {
    set i | 0 <= i < |events| && events[i].Fired? :: events[i].id
  }

  lemma StillDue(h: seq<Event>, events: seq<Event>, id: string, now: Instant)
    requires IsDue(h, id, now)
    requires forall i :: 0 <= i < |events| ==> events[i].Fired? && events[i].id != id
    ensures IsDue(h + events, id, now)
  {
    LaneUntouched(h, events, id);
  }

  lemma OneMoreFire(events: seq<Event>, ev: Event, now: Instant)
    requires TickFires(events, now) && FiredOnce(events)
    requires TickFires([ev], now) && ev.Fired? && ev.id !in FiredIds(events)
    ensures TickFires(events + [ev], now) && FiredOnce(events + [ev])
    ensures forall id :: id in FiredIds(events + [ev]) <==> id in FiredIds(events) || id == ev.id
  {
    var more := events + [ev];
    assert [ev][0] == ev;
    assert more[|events|] == ev && forall i :: 0 <= i < |events| ==> more[i] == events[i];
  }

  lemma EndsWithLast(events: seq<Event>, ev: Event)
    requires EndsWith(events, false)
    ensures EndsWith(events + [ev], Raising(ev))
  {
    var more := events + [ev];
    assert more[|events|] == ev && forall i :: 0 <= i < |events| ==> more[i] == events[i];
  }

  lemma FoundInRange(e: Expr, dt: Instant)
    ensures NextAfter(e, dt).At? ==> NextAfter(e, dt).minute < END_MINUTE && NextAfter(e, dt).minute > MinuteOf(dt)
  {
    NextExact(Hits(e), dt);
  }

  /** What firing one more due job does to the fires of a tick. */
  lemma TickFire(before: seq<Event>, fired: seq<Event>, jobs: map<string, Job>, rows: map<string, Row>,
                 id: string, now: Instant, call: Call)
    requires Consistent(before + fired, jobs, rows) && Supervised(before + fired) && !Crashed(before + fired)
    requires id in jobs && IsDue(before, id, now) && id !in FiredIds(fired)
    requires TickFires(fired, now) && FiredOnce(fired) && EndsWith(fired, false)
    requires Clock(before + fired) <= call.start && now <= call.start <= call.end
    ensures IsDue(before + fired, id, now)
    ensures var ev := DueFire(before + fired, jobs[id].expr, id, now, call);
            var more := fired + [ev];
            && before + fired + [ev] == before + more && Allowed(before + fired, ev)
            && TickFires(more, now) && FiredOnce(more) && EndsWith(more, Raising(ev))
            && (Crashed(before + more) <==> Raising(ev)) && Clock(before + more) == call.end
            && forall j :: j in FiredIds(more) <==> j in FiredIds(fired) || j == id
  {
    StillDue(before, fired, id, now);
    var ev := DueFire(before + fired, jobs[id].expr, id, now, call);
    LoopFireAllowed(before + fired, jobs, rows, id, now, call);
    LegalStep(before + fired, ev);
    LoopStep(before + fired, ev);
    OneMoreFire(fired, ev, now);
    EndsWithLast(fired, ev);
    assert before + fired + [ev] == before + (fired + [ev]);
  }
}
