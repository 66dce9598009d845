/** The event half of the scheduler (ota_core/automation/scheduler.py): hooks by event type,
    with debouncing. */
module EventHooks {
  import opened Outcomes
  import opened HookHistory

  class EventScheduler {
    /** The hooks in registration order. */
    var hooks: seq<Hook>
    ghost var history: seq<Event>

    ghost predicate Valid() reads this {
      Legal(history) && HooksAgree(hooks, history)
    }

    constructor ()
      ensures Valid() && hooks == [] && history == []
    {
      hooks := [];
      history := [];
    }

    method Position(id: string) returns (at: Option<nat>)
      ensures at.Some? ==> at.value < |hooks| && hooks[at.value].id == id
      ensures at.None? ==> forall i :: 0 <= i < |hooks| ==> hooks[i].id != id
    {
      for i := 0 to |hooks|
        invariant forall j :: 0 <= j < i ==> hooks[j].id != id
      {
        if hooks[i].id == id {
          return Some(i);
        }
      }
      at := None;
    }

    /** False for a hook id that is already registered. */
    method RegisterEventHook(k: Hook) returns (ok: bool)
      requires Valid()
      modifies this
      ensures Valid()
      ensures ok <==> forall i :: 0 <= i < |old(hooks)| ==> old(hooks)[i].id != k.id
      ensures hooks == if ok then old(hooks) + [k] else old(hooks)
      ensures history == if ok then old(history) + [Added(k.id, k.debounce, k.lastFire)] else old(history)
    {
      var at := Position(k.id);
      ok := at.None?;
      if ok {
        AddKeeps(hooks, history, k);
        hooks := hooks + [k];
        history := history + [Added(k.id, k.debounce, k.lastFire)];
      }
    }

    /** False for an unknown hook id. */
    method DeregisterEventHook(id: string) returns (ok: bool)
      requires Valid()
      modifies this`hooks
      ensures Valid() && (ok <==> exists i :: 0 <= i < |old(hooks)| && old(hooks)[i].id == id)
      ensures forall i :: 0 <= i < |hooks| ==> hooks[i].id != id
      ensures ok ==> exists i :: 0 <= i < |old(hooks)| && hooks == old(hooks)[..i] + old(hooks)[i + 1..]
      ensures !ok ==> hooks == old(hooks)
    {
      var at := Position(id);
      ok := at.Some?;
      if ok {
        hooks := hooks[..at.value] + hooks[at.value + 1..];
      }
    }

    /** Every ready hook of the type fires, in order, until a callback raises; that one is
        not recorded as fired.  The result is None when a callback raised. */
    method FireEvent(eventType: string, now: int, raises: string -> bool) returns (fired: Option<nat>)
      requires Valid() && NotAfter(history, now)
      modifies this
      ensures Valid() && NotAfter(history, now)
      ensures exists n :: 0 <= n <= |old(hooks)| && Ended(old(hooks), n, eventType, now, raises, fired)
                && history == old(history) + Fires(old(hooks), n, eventType, now)
                && Offered(old(hooks), hooks, n, eventType, now)
                && Told(old(hooks), old(history), hooks, history, n, eventType, now)
      ensures fired.Some? ==>
                && fired.value == WantedCount(old(hooks), old(history), |old(hooks)|, eventType, now)
                && Told(old(hooks), old(history), hooks, history, |old(hooks)|, eventType, now)
    {
      var count := 0;
      assert old(history) + [] == old(history);
      for n := 0 to |hooks|
        invariant Progress(old(hooks), old(history), hooks, history, n, eventType, now, raises)
        invariant count == |Fires(old(hooks), n, eventType, now)|
      {
        var k := hooks[n];
        if !Ready(k, eventType, now) {
          ProgressSkips(old(hooks), old(history), hooks, history, n, eventType, now, raises);
          continue;
        }
        if raises(k.id) {
          OfferedIsTold(old(hooks), old(history), hooks, history, n, eventType, now);
          assert Ended(old(hooks), n, eventType, now, raises, None);
          return None;
        }
        ProgressFires(old(hooks), old(history), hooks, history, n, eventType, now, raises);
        hooks := hooks[n := k.(lastFire := Some(now))];
        history := history + [Fired(k.id, now)];
        count := count + 1;
      }
      fired := Some(count);
      OfferedIsTold(old(hooks), old(history), hooks, history, |hooks|, eventType, now);
      assert Ended(old(hooks), |old(hooks)|, eventType, now, raises, fired);
    }
  }
}
