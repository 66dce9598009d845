/** The cron half of the scheduler (ota_core/automation/scheduler.py).  The table keeps
    `next_fire_at` as ISO text; every call appends to a history. */
module Scheduler {
  import opened Outcomes
  import opened Text
  import opened Calendar
  import opened IsoTime
  import opened Cron
  import opened JobHistory

  class Database {
    var rows: map<string, Row>
    ghost var history: seq<Event>

    ghost predicate Agrees()
      reads this
    {
      Legal(history) && Supervised(history) && TableAgrees(history, rows)
    }

    constructor ()
      ensures rows == map[] && history == [] && Agrees()
    {
      rows := map[];
      history := [];
    }
  }

  datatype RegisterResult = Stored | Duplicate | BadExpression(error: ParseError) | NoUpcoming
  datatype FireResult = Done | CallbackRaised | SearchRaised | UnknownJob

  /** The loop task: not there, running, or ended by an exception and still referred to. */
  datatype Task = Idle | Running | Ended

  class Scheduler {
    const db: Database
    var jobs: map<string, Job>
    var task: Task

    ghost predicate Consistent()
      reads this, db
    {
      JobHistory.Consistent(db.history, jobs, db.rows) && Supervised(db.history)
    }

    ghost predicate Valid()
      reads this, db
    {
      Consistent() && (task == Ended <==> Crashed(db.history))
    }

    /** Opening a scheduler on a database, possibly one that an earlier process left. */
    constructor (db: Database)
      requires db.Agrees()
      modifies db
      ensures this.db == db && Valid() && jobs == map[] && task == Idle
      ensures db.rows == old(db.rows) && db.history == old(db.history) + [Restarted]
    {
      this.db := db;
      this.jobs := map[];
      this.task := Idle;
      new;
      RestartStep(db.history, db.rows);
      LoopStep(db.history, Restarted);
      db.history := db.history + [Restarted];
    }

    method RegisterCron(id: string, text: string, now: Instant) returns (r: RegisterResult)
      requires Valid() && Clock(db.history) <= now
      modifies this`jobs, db
      ensures Valid()
      ensures r == Duplicate <==> old(id in jobs)
      ensures r.BadExpression? ==> old(id !in jobs) && IsParse(text, Err(r.error))
      ensures r.Duplicate? || r.BadExpression? ==>
                db.history == old(db.history) && jobs == old(jobs) && db.rows == old(db.rows)
      ensures r.Stored? || r.NoUpcoming? ==>
                && id in jobs && jobs == old(jobs)[id := Job(text, jobs[id].expr)]
                && IsParse(text, Ok(jobs[id].expr))
                && (r.Stored? <==> NextAfter(jobs[id].expr, now).At?)
                && db.rows == RowsAfterRegister(old(db.rows), id, text, NextAfter(jobs[id].expr, now))
                && db.history == old(db.history) + [Registered(id, jobs[id].expr, now, NextAfter(jobs[id].expr, now))]
    {
      if id in jobs {
        return Duplicate;
      }
      var parsed := Parse(text);
      if parsed.Err? {
        return BadExpression(parsed.error);
      }
      var e := parsed.value;
      RegisterStep(db.history, jobs, db.rows, id, text, e, now);
      jobs := jobs[id := Job(text, e)];
      var next := FindNext(e, now);
      FoundInRange(e, now);
      LoopStep(db.history, Registered(id, e, now, next));
      if next.At? {
        db.rows := db.rows[id := Row(text, Iso(StartOf(next.minute)), None, None)];
      }
      db.history := db.history + [Registered(id, e, now, next)];
      return if next.At? then Stored else NoUpcoming;
    }

    method DeregisterCron(id: string) returns (known: bool)
      requires Valid()
      modifies this`jobs, db
      ensures Valid() && known == old(id in jobs)
      ensures known ==> jobs == old(jobs) - {id} && db.rows == old(db.rows) - {id}
                        && db.history == old(db.history) + [Deregistered(id)]
      ensures !known ==> jobs == old(jobs) && db.rows == old(db.rows) && db.history == old(db.history)
    {
      if id !in jobs {
        return false;
      }
      DeregisterStep(db.history, jobs, db.rows, id);
      LoopStep(db.history, Deregistered(id));
      jobs := jobs - {id};
      db.rows := db.rows - {id};
      db.history := db.history + [Deregistered(id)];
      return true;
    }

    /** `_fire_cron`: run the callback, search again, rewrite the row. */
    method FireCron(id: string, call: Call, ghost cause: Cause) returns (r: FireResult)
      requires Consistent() && id in jobs && (cause.Loop? ==> !Crashed(db.history))
      requires Allowed(db.history, Fired(id, cause, call, NextAfter(jobs[id].expr, call.end)))
      modifies db
      ensures Consistent()
      ensures db.history == old(db.history) + [Fired(id, cause, call, NextAfter(jobs[id].expr, call.end))]
      ensures db.rows == RowsAfterFire(old(db.rows), id, call, NextAfter(jobs[id].expr, call.end))
      ensures r == if !NextAfter(jobs[id].expr, call.end).At? then SearchRaised
                   else if call.failed then CallbackRaised else Done
      ensures r != SearchRaised && id in db.rows ==>
                && db.rows[id].lastFire == Some(Iso(call.start))
                && db.rows[id].lastStatus == Some(if call.failed then Failed else Succeeded)
    {
      var next := FindNext(jobs[id].expr, call.end);
      FoundInRange(jobs[id].expr, call.end);
      FireStep(db.history, jobs, db.rows, Fired(id, cause, call, next));
      LoopStep(db.history, Fired(id, cause, call, next));
      if next.At? && id in db.rows {
        var status := if call.failed then Failed else Succeeded;
        db.rows := db.rows[id := db.rows[id].(
          lastFire := Some(Iso(call.start)), lastStatus := Some(status), nextFire := Iso(StartOf(next.minute)))];
      }
      db.history := db.history + [Fired(id, cause, call, next)];
      return if !next.At? then SearchRaised else if call.failed then CallbackRaised else Done;
    }

    method Trigger(id: string, call: Call) returns (r: FireResult)
      requires Valid() && Clock(db.history) <= call.start <= call.end
      modifies db
      ensures Valid()
      ensures r == UnknownJob <==> id !in jobs
      ensures r == UnknownJob ==> db.rows == old(db.rows) && db.history == old(db.history)
      ensures id in jobs ==>
                && db.history == old(db.history) + [Fired(id, Manual, call, NextAfter(jobs[id].expr, call.end))]
                && db.rows == RowsAfterFire(old(db.rows), id, call, NextAfter(jobs[id].expr, call.end))
    {
      if id !in jobs {
        return UnknownJob;
      }
      ManualFireAllowed(db.history, jobs, db.rows, id, call);
      LoopStep(db.history, Fired(id, Manual, call, NextAfter(jobs[id].expr, call.end)));
      r := FireCron(id, call, Manual);
    }

    /** The rows whose text does not exceed the text of `now`, in whatever order the
        database yields them: exactly the rows that are due. */
    method FetchDue(now: Instant) returns (due: seq<string>)
      requires Consistent()
      ensures forall i, j :: 0 <= i < j < |due| ==> due[i] != due[j]
      ensures forall id :: id in due <==> IsDue(db.history, id, now)
    {
      due := [];
      var text := Iso(now);
      var left := db.rows.Keys;
      while left != {}
        invariant left <= db.rows.Keys
        invariant forall i :: 0 <= i < |due| ==> due[i] !in left
        invariant forall i, j :: 0 <= i < j < |due| ==> due[i] != due[j]
        invariant forall id :: id in due <==> id in db.rows && id !in left && AtMost(db.rows[id].nextFire, text)
      {
        var id :| id in left;
        if AtMost(db.rows[id].nextFire, text) {
          due := due + [id];
        }
        left := left - {id};
      }
      forall id ensures id in due <==> IsDue(db.history, id, now) {
        TextSelectsDue(db.history, db.rows, id, now);
      }
    }

    /** One round of the tick's loop, after the fires of this tick so far, for a job in memory. */
    method FireDue(id: string, now: Instant, call: Call, ghost before: seq<Event>, ghost fired: seq<Event>)
      returns (r: FireResult, ghost more: seq<Event>)
      requires Consistent() && id in jobs && IsDue(before, id, now) && id !in FiredIds(fired)
      requires db.history == before + fired && TickFires(fired, now) && FiredOnce(fired)
      requires EndsWith(fired, false) && !Crashed(db.history)
      requires Clock(db.history) <= call.start && now <= call.start <= call.end
      modifies db
      ensures Consistent() && r != UnknownJob
      ensures db.history == before + more && TickFires(more, now) && FiredOnce(more)
      ensures EndsWith(more, r != Done) && (r != Done <==> Crashed(db.history))
      ensures |more| == |fired| + 1 && fired <= more && more[|fired|].id == id && more[|fired|].call == call
      ensures forall j :: j in FiredIds(more) <==> j in FiredIds(fired) || j == id
      ensures Clock(db.history) == call.end
      ensures r == Done <==> NextAfter(jobs[id].expr, call.end).At? && !call.failed
    {
      TickFire(before, fired, jobs, db.rows, id, now, call);
      ghost var ev := DueFire(db.history, jobs[id].expr, id, now, call);
      more := fired + [ev];
      r := FireCron(id, call, ev.cause);
    }

    /** `_tick`: every due job that is in memory fires once, until one raises. */
    method Tick(now: Instant, calls: nat -> Call) returns (r: FireResult, ghost fired: seq<Event>)
      requires Consistent() && !Crashed(db.history)
      requires Clock(db.history) <= now <= calls(0).start
      requires forall k: nat :: calls(k).start <= calls(k).end <= calls(k + 1).start
      modifies db
      ensures Consistent() && r != UnknownJob && (r != Done <==> Crashed(db.history))
      ensures db.history == old(db.history) + fired && TickFires(fired, now) && FiredOnce(fired)
      ensures EndsWith(fired, r != Done)
      ensures forall id :: id in FiredIds(fired) ==> id in jobs && IsDue(old(db.history), id, now)
      ensures r == Done ==> forall id :: id in jobs && IsDue(old(db.history), id, now) ==> id in FiredIds(fired)
    {
      var due := FetchDue(now);
      ghost var before := db.history;
      var k: nat := 0;
      fired := [];
      assert before + fired == before;
      for i := 0 to |due|
        invariant Consistent() && !Crashed(db.history) && db.history == before + fired
        invariant Clock(db.history) <= calls(k).start && now <= calls(k).start
        invariant TickFires(fired, now) && FiredOnce(fired) && EndsWith(fired, false)
        invariant forall id :: id in FiredIds(fired) <==> id in due[..i] && id in jobs
      {
        assert due[..i + 1] == due[..i] + [due[i]];
        if due[i] in jobs {
          r, fired := FireDue(due[i], now, calls(k), before, fired);
          if r != Done {
            return;
          }
          k := k + 1;
        }
      }
      assert due[..|due|] == due;
      r := Done;
    }

    // ---------- The loop task ----------

    /** `start` does nothing while there is a task, also one that has ended. */
    method Start()
      requires Valid()
      modifies this`task
      ensures Valid() && task == if old(task) == Idle then Running else old(task)
    {
      if task != Idle {
        return;
      }
      task := Running;
    }

    /** `stop`, between rounds: waiting for a task that has ended raises its exception, and
        the reference to it stays. */
    method Stop() returns (raised: bool)
      requires Valid()
      modifies this`task
      ensures Valid() && raised == (old(task) == Ended)
      ensures task == if raised then Ended else Idle
    {
      if task == Idle {
        return false;
      }
      if task == Ended {
        return true;
      }
      task := Idle;
      return false;
    }

    /** One round of `_run_loop`: an exception that leaves the tick ends the task. */
    method RunRound(now: Instant, calls: nat -> Call) returns (ghost fired: seq<Event>)
      requires Valid() && task == Running
      requires Clock(db.history) <= now <= calls(0).start
      requires forall k: nat :: calls(k).start <= calls(k).end <= calls(k + 1).start
      modifies this`task, db
      ensures Valid() && task != Idle && db.history == old(db.history) + fired
      ensures TickFires(fired, now) && FiredOnce(fired) && EndsWith(fired, task == Ended)
      ensures task == Running ==> forall id :: id in jobs && IsDue(old(db.history), id, now) ==> id in FiredIds(fired)
    {
      var r;
      r, fired := Tick(now, calls);
      if r != Done {
        task := Ended;
      }
    }
  }
}
