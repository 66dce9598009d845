/** What event hooks may do (ota_core/automation/scheduler.py): the history of registrations
    and fires, and the spacing that debouncing guarantees. */
module HookHistory {
  import opened Outcomes

  /** `lastFire` is the field of the hook in memory. */
  datatype Hook = Hook(id: string, eventType: string, debounce: Option<int>, lastFire: Option<int>)

  datatype Event =
    | Added(id: string, debounce: Option<int>, since: Option<int>)
    | Fired(id: string, at: int)

  predicate Ready(k: Hook, eventType: string, now: int) {
    k.eventType == eventType
    && (k.debounce.Some? && k.lastFire.Some? ==> now - k.lastFire.value >= k.debounce.value)
  }

  /** Debounce and latest fire of a hook since it was last added. */
  ghost function Current(h: seq<Event>, id: string): (Option<int>, Option<int>) {
    if h == [] then (None, None)
    else
      match h[|h| - 1]
      case Added(i, debounce, since) => if i == id then (debounce, since) else Current(h[..|h| - 1], id)
      case Fired(i, at) =>
        var c := Current(h[..|h| - 1], id);
        if i == id then (c.0, Some(at)) else c
  }

  ghost predicate MayFire(h: seq<Event>, id: string, now: int) {
    var (debounce, last) := Current(h, id);
    debounce.Some? && last.Some? ==> now - last.value >= debounce.value
  }

  /** Fires happen in the order of the clock and are debounced. */
  ghost predicate Legal(h: seq<Event>) {
    h == [] ||
    var init, e := h[..|h| - 1], h[|h| - 1];
    && Legal(init)
    && (e.Fired? ==> MayFire(init, e.id, e.at) && NotAfter(init, e.at))
  }

  ghost predicate NotAfter(h: seq<Event>, now: int) {
    forall i :: 0 <= i < |h| && h[i].Fired? ==> h[i].at <= now
  }

  lemma EventStep(h: seq<Event>, e: Event, id: string)
    ensures Legal(h + [e]) <==> Legal(h) && (e.Fired? ==> MayFire(h, e.id, e.at) && NotAfter(h, e.at))
    ensures Current(h + [e], id) ==
            match e
            case Added(i, debounce, since) => if i == id then (debounce, since) else Current(h, id)
            case Fired(i, at) => if i == id then (Current(h, id).0, Some(at)) else Current(h, id)
  {
    assert (h + [e])[..|h|] == h;
  }

  ghost predicate NotAddedBetween(h: seq<Event>, a: int, j: int, id: string)
    requires 0 <= a < j <= |h|
  {
    forall k :: a < k < j && h[k].Added? ==> h[k].id != id
  }

  /** After a fire at `i`, the hook's latest fire is at least as late. */
  lemma {:induction false} LatestFire(h: seq<Event>, a: nat, i: nat, id: string)
    requires a < i < |h| && Legal(h) && h[a].Added? && h[a].id == id && NotAddedBetween(h, a, |h|, id)
    requires h[i].Fired? && h[i].id == id
    ensures Current(h, id).0 == h[a].debounce
    ensures Current(h, id).1.Some? && h[i].at <= Current(h, id).1.value
    decreases |h|
  {
    var init, e := h[..|h| - 1], h[|h| - 1];
    if i < |init| {
      LatestFire(init, a, i, id);
    } else {
      AddedDebounce(h, a, id);
    }
  }

  lemma {:induction false} AddedDebounce(h: seq<Event>, a: nat, id: string)
    requires a < |h| && h[a].Added? && h[a].id == id && NotAddedBetween(h, a, |h|, id)
    ensures Current(h, id).0 == h[a].debounce
    decreases |h|
  {
    if a < |h| - 1 {
      AddedDebounce(h[..|h| - 1], a, id);
    }
  }

  lemma {:induction false} LegalPrefix(h: seq<Event>, n: nat)
    requires Legal(h) && n <= |h|
    ensures Legal(h[..n])
    decreases |h|
  {
    if n < |h| {
      LegalPrefix(h[..|h| - 1], n);
      assert h[..|h| - 1][..n] == h[..n];
    } else {
      assert h[..n] == h;
    }
  }

  /** Any two fires of one registration of a hook are at least its debounce apart. */
  lemma FiresAreSpaced(h: seq<Event>, a: nat, i: nat, j: nat)
    requires Legal(h) && a < i < j < |h|
    requires h[a].Added? && h[i].Fired? && h[j].Fired? && h[a].id == h[i].id == h[j].id
    requires NotAddedBetween(h, a, j, h[a].id) && h[a].debounce.Some?
    ensures h[j].at - h[i].at >= h[a].debounce.value
  {
    LegalPrefix(h, j + 1);
    LegalPrefix(h, j);
    assert h[..j + 1][..j] == h[..j];
    LatestFire(h[..j], a, i, h[a].id);
  }

  /** Just after it was added a hook may fire if and only if the last fire it was added with,
      which a hook object keeps while it is not registered, is a debounce ago. */
  lemma FirstFireAllowed(h: seq<Event>, id: string, debounce: Option<int>, since: Option<int>, now: int)
    ensures Legal(h + [Added(id, debounce, since)] + [Fired(id, now)])
            <==> && Legal(h) && NotAfter(h, now)
                 && (debounce.Some? && since.Some? ==> now - since.value >= debounce.value)
  {
    var e, f := Added(id, debounce, since), Fired(id, now);
    EventStep(h, e, id);
    EventStep(h + [e], f, id);
    AddedIsNoFire(h, e, now);
  }

  lemma AddedIsNoFire(h: seq<Event>, e: Event, now: int)
    requires e.Added?
    ensures NotAfter(h + [e], now) <==> NotAfter(h, now)
  {
    if NotAfter(h + [e], now) {
      forall i | 0 <= i < |h| && h[i].Fired? ensures h[i].at <= now {
        assert (h + [e])[i] == h[i];
      }
    }
  }

  /** Every next fire that may follow the hook's being added again keeps the debounce from
      its fire at `last`. */
  ghost predicate StaysDebounced(h: seq<Event>, id: string, d: int, since: Option<int>, last: int) {
    forall now :: Legal(h + [Added(id, Some(d), since)] + [Fired(id, now)]) ==> now - last >= d
  }

  /** Debouncing survives being added again if and only if the hook is added with that fire or
      a later one, or the clock has passed the debounce anyway: it does for the object that
      fired, and need not for a new one. */
  lemma DebouncedAcrossAdding(h: seq<Event>, id: string, d: int, since: Option<int>, last: int)
    requires Legal(h) && Current(h, id).1 == Some(last) && d > 0
    ensures StaysDebounced(h, id, d, since, last)
            <==> (since.Some? && since.value >= last) || !NotAfter(h, last + d - 1)
  {
    forall now ensures Legal(h + [Added(id, Some(d), since)] + [Fired(id, now)])
                       <==> NotAfter(h, now) && (since.Some? ==> now - since.value >= d)
    {
      FirstFireAllowed(h, id, Some(d), since, now);
    }
    var soon := last + d - 1;
    if NotAfter(h, soon) && (since.None? || since.value < last) {
      assert Legal(h + [Added(id, Some(d), since)] + [Fired(id, soon)]);
    }
    forall now | NotAfter(h, now) && now <= soon ensures NotAfter(h, soon) {
      NotAfterLater(h, now, soon);
    }
  }

  lemma NotAfterLater(h: seq<Event>, now: int, later: int)
    requires NotAfter(h, now) && now <= later
    ensures NotAfter(h, later)
  {
  }

  /** The object that fired, registered again: any fire is at least its debounce after the
      last one of the earlier registration. */
  lemma SameObjectStaysDebounced(h: seq<Event>, id: string, d: int, now: int)
    requires Current(h, id).1.Some? && Legal(h + [Added(id, Some(d), Current(h, id).1)] + [Fired(id, now)])
    ensures now - Current(h, id).1.value >= d
  {
    FirstFireAllowed(h, id, Some(d), Current(h, id).1, now);
  }

  // ---------- One event ----------

  /** The fires that one event causes among the first `n` hooks. */
  ghost function Fires(hooks: seq<Hook>, n: nat, eventType: string, now: int): seq<Event>
    requires n <= |hooks|
  {
    if n == 0 then []
    else
      Fires(hooks, n - 1, eventType, now)
      + if Ready(hooks[n - 1], eventType, now) then [Fired(hooks[n - 1].id, now)] else []
  }

  function Stamp(k: Hook, eventType: string, now: int): Hook {
    if Ready(k, eventType, now) then k.(lastFire := Some(now)) else k
  }

  /** The first `n` hooks have been offered the event, the others not. */
  ghost predicate Offered(before: seq<Hook>, after: seq<Hook>, n: nat, eventType: string, now: int)
    requires n <= |before|
  {
    && |after| == |before|
    && (forall i :: 0 <= i < n ==> after[i] == Stamp(before[i], eventType, now))
    && forall i :: n <= i < |before| ==> after[i] == before[i]
  }

  /** How the event ended: all hooks were offered it, or the callback of hook `n` raised. */
  ghost predicate Ended(hooks: seq<Hook>, n: nat, eventType: string, now: int, raises: string -> bool,
                        fired: Option<nat>)
    requires n <= |hooks|
  {
    && NoneRaised(hooks, n, eventType, now, raises)
    && match fired
       case Some(count) => n == |hooks| && count == |Fires(hooks, n, eventType, now)|
       case None => n < |hooks| && Ready(hooks[n], eventType, now) && raises(hooks[n].id)
  }

  ghost predicate DistinctIds(hooks: seq<Hook>) {
    forall i, j :: 0 <= i < j < |hooks| ==> hooks[i].id != hooks[j].id
  }

  ghost predicate HookAgrees(k: Hook, h: seq<Event>) {
    Current(h, k.id) == (k.debounce, k.lastFire)
  }

  ghost predicate HooksAgree(hooks: seq<Hook>, h: seq<Event>) {
    DistinctIds(hooks) && forall i :: 0 <= i < |hooks| ==> HookAgrees(hooks[i], h)
  }

  lemma OtherHook(k: Hook, h: seq<Event>, e: Event)
    requires HookAgrees(k, h) && e.id != k.id
    ensures HookAgrees(k, h + [e])
  {
    EventStep(h, e, k.id);
  }

  lemma AddKeeps(hooks: seq<Hook>, h: seq<Event>, k: Hook)
    requires Legal(h) && HooksAgree(hooks, h) && forall i :: 0 <= i < |hooks| ==> hooks[i].id != k.id
    ensures var h' := h + [Added(k.id, k.debounce, k.lastFire)]; Legal(h') && HooksAgree(hooks + [k], h')
  {
    var e := Added(k.id, k.debounce, k.lastFire);
    EventStep(h, e, k.id);
    forall i | 0 <= i < |hooks| ensures HookAgrees(hooks[i], h + [e]) {
      OtherHook(hooks[i], h, e);
    }
  }

  lemma FireLegal(k: Hook, h: seq<Event>, eventType: string, now: int)
    requires Legal(h) && NotAfter(h, now) && HookAgrees(k, h) && Ready(k, eventType, now)
    ensures var h' := h + [Fired(k.id, now)];
            Legal(h') && NotAfter(h', now) && HookAgrees(k.(lastFire := Some(now)), h')
  {
    EventStep(h, Fired(k.id, now), k.id);
  }

  lemma FireKeeps(hooks: seq<Hook>, h: seq<Event>, n: nat, now: int)
    requires HooksAgree(hooks, h) && n < |hooks|
    requires HookAgrees(hooks[n].(lastFire := Some(now)), h + [Fired(hooks[n].id, now)])
    ensures HooksAgree(hooks[n := hooks[n].(lastFire := Some(now))], h + [Fired(hooks[n].id, now)])
  {
    var e, hooks' := Fired(hooks[n].id, now), hooks[n := hooks[n].(lastFire := Some(now))];
    forall i | 0 <= i < |hooks'| ensures HookAgrees(hooks'[i], h + [e]) {
      if i != n {
        assert hooks[i].id != hooks[n].id;
        OtherHook(hooks[i], h, e);
      }
    }
  }

  ghost predicate NoneRaised(hooks: seq<Hook>, n: nat, eventType: string, now: int, raises: string -> bool)
    requires n <= |hooks|
  {
    forall i :: 0 <= i < n && Ready(hooks[i], eventType, now) ==> !raises(hooks[i].id)
  }

  lemma OfferedNext(before: seq<Hook>, after: seq<Hook>, n: nat, eventType: string, now: int)
    requires n < |before| && Offered(before, after, n, eventType, now)
    ensures after[n] == before[n]
    ensures Offered(before, after[n := Stamp(before[n], eventType, now)], n + 1, eventType, now)
  {
  }

  /** The event has been offered to the first `n` hooks and no callback has raised. */
  ghost predicate Progress(before: seq<Hook>, h: seq<Event>, hooks: seq<Hook>, h': seq<Event>, n: nat,
                           eventType: string, now: int, raises: string -> bool)
    requires n <= |before|
  {
    && Legal(h') && NotAfter(h', now) && HooksAgree(hooks, h')
    && Offered(before, hooks, n, eventType, now)
    && h' == h + Fires(before, n, eventType, now)
    && NoneRaised(before, n, eventType, now, raises)
  }

  lemma ProgressFires(before: seq<Hook>, h: seq<Event>, hooks: seq<Hook>, h': seq<Event>, n: nat, eventType: string,
                      now: int, raises: string -> bool)
    requires n < |before| && Progress(before, h, hooks, h', n, eventType, now, raises)
    requires Ready(hooks[n], eventType, now) && !raises(hooks[n].id)
    ensures Progress(before, h, hooks[n := hooks[n].(lastFire := Some(now))], h' + [Fired(hooks[n].id, now)], n + 1,
                     eventType, now, raises)
  {
    OfferedNext(before, hooks, n, eventType, now);
    FireLegal(hooks[n], h', eventType, now);
    FireKeeps(hooks, h', n, now);
    Extended(h, Fires(before, n, eventType, now), Fired(hooks[n].id, now));
  }

  lemma Extended(h: seq<Event>, fires: seq<Event>, e: Event)
    ensures (h + fires) + [e] == h + (fires + [e])
  {
  }

  lemma ProgressSkips(before: seq<Hook>, h: seq<Event>, hooks: seq<Hook>, h': seq<Event>, n: nat, eventType: string,
                      now: int, raises: string -> bool)
    requires n < |before| && Progress(before, h, hooks, h', n, eventType, now, raises)
    requires !Ready(hooks[n], eventType, now)
    ensures Progress(before, h, hooks, h', n + 1, eventType, now, raises)
  {
    OfferedNext(before, hooks, n, eventType, now);
    assert hooks[n := Stamp(before[n], eventType, now)] == hooks;
    assert Fires(before, n + 1, eventType, now) == Fires(before, n, eventType, now);
  }

  // ---------- Which hooks fire ----------

  /** The hook is for the event's type, and the history permits its fire. */
  ghost predicate Wanted(k: Hook, h: seq<Event>, eventType: string, now: int) {
    k.eventType == eventType && MayFire(h, k.id, now)
  }

  /** How many of the first `n` hooks are wanted. */
  ghost function WantedCount(hooks: seq<Hook>, h: seq<Event>, n: nat, eventType: string, now: int): nat
    requires n <= |hooks|
  {
    if n == 0 then 0
    else WantedCount(hooks, h, n - 1, eventType, now) + if Wanted(hooks[n - 1], h, eventType, now) then 1 else 0
  }

  lemma ReadyIsWanted(k: Hook, h: seq<Event>, eventType: string, now: int)
    requires HookAgrees(k, h)
    ensures Ready(k, eventType, now) <==> Wanted(k, h, eventType, now)
  {
  }

  /** Every fire is of a wanted hook, and each wanted hook fires once. */
  ghost predicate FiresWanted(hooks: seq<Hook>, h: seq<Event>, n: nat, eventType: string, now: int, fires: seq<Event>)
    requires n <= |hooks|
  {
    && |fires| == WantedCount(hooks, h, n, eventType, now)
    && (forall e :: e in fires ==> exists i :: 0 <= i < n && e == Fired(hooks[i].id, now))
    && forall i :: 0 <= i < n ==> (Fired(hooks[i].id, now) in fires <==> Wanted(hooks[i], h, eventType, now))
  }

  lemma WantedFires(hooks: seq<Hook>, h: seq<Event>, n: nat, eventType: string, now: int, fires: seq<Event>)
    requires n < |hooks| && DistinctIds(hooks) && Wanted(hooks[n], h, eventType, now)
    requires FiresWanted(hooks, h, n, eventType, now, fires)
    ensures FiresWanted(hooks, h, n + 1, eventType, now, fires + [Fired(hooks[n].id, now)])
  {
    forall i | 0 <= i < n ensures hooks[i].id != hooks[n].id {
    }
  }

  lemma UnwantedSkipped(hooks: seq<Hook>, h: seq<Event>, n: nat, eventType: string, now: int, fires: seq<Event>)
    requires n < |hooks| && DistinctIds(hooks) && !Wanted(hooks[n], h, eventType, now)
    requires FiresWanted(hooks, h, n, eventType, now, fires)
    ensures FiresWanted(hooks, h, n + 1, eventType, now, fires)
  {
    forall i | 0 <= i < n ensures hooks[i].id != hooks[n].id {
    }
  }

  lemma {:induction false} FiresAreWanted(hooks: seq<Hook>, h: seq<Event>, n: nat, eventType: string, now: int)
    requires HooksAgree(hooks, h) && n <= |hooks|
    ensures FiresWanted(hooks, h, n, eventType, now, Fires(hooks, n, eventType, now))
  {
    if n > 0 {
      var fires := Fires(hooks, n - 1, eventType, now);
      FiresAreWanted(hooks, h, n - 1, eventType, now);
      assert HookAgrees(hooks[n - 1], h);
      ReadyIsWanted(hooks[n - 1], h, eventType, now);
      if Wanted(hooks[n - 1], h, eventType, now) {
        WantedFires(hooks, h, n - 1, eventType, now, fires);
      } else {
        UnwantedSkipped(hooks, h, n - 1, eventType, now, fires);
        assert Fires(hooks, n, eventType, now) == fires;
      }
    }
  }

  /** Of the first `n` hooks the wanted ones show the fire, the others are as before. */
  ghost predicate Marked(before: seq<Hook>, after: seq<Hook>, h: seq<Event>, n: nat, eventType: string, now: int)
    requires n <= |before|
  {
    && |after| == |before|
    && forall i :: 0 <= i < |before| ==>
         after[i] == if i < n && Wanted(before[i], h, eventType, now) then before[i].(lastFire := Some(now))
                     else before[i]
  }

  lemma OfferedIsMarked(before: seq<Hook>, after: seq<Hook>, h: seq<Event>, n: nat, eventType: string, now: int)
    requires HooksAgree(before, h) && n <= |before| && Offered(before, after, n, eventType, now)
    ensures Marked(before, after, h, n, eventType, now)
  {
    forall i | 0 <= i < |before| ensures Ready(before[i], eventType, now) <==> Wanted(before[i], h, eventType, now) {
      assert HookAgrees(before[i], h);
      ReadyIsWanted(before[i], h, eventType, now);
    }
  }

  /** A hook for another type gets no event and keeps its last fire. */
  lemma OtherTypeUntouched(before: seq<Hook>, after: seq<Hook>, h: seq<Event>, n: nat, eventType: string, now: int,
                           fires: seq<Event>, i: nat)
    requires n <= |before| && Marked(before, after, h, n, eventType, now)
    requires FiresWanted(before, h, n, eventType, now, fires) && DistinctIds(before)
    requires i < |before| && before[i].eventType != eventType
    ensures after[i] == before[i] && Fired(before[i].id, now) !in fires
  {
    forall j | 0 <= j < n && before[j].id == before[i].id ensures j == i {
    }
  }

  /** What an event offered to the first `n` hooks leaves: exactly the wanted among them have
      fired, show it, and are recorded. */
  ghost predicate Told(before: seq<Hook>, h: seq<Event>, after: seq<Hook>, h': seq<Event>, n: nat, eventType: string,
                       now: int)
    requires n <= |before|
  {
    && Marked(before, after, h, n, eventType, now)
    && h <= h' && FiresWanted(before, h, n, eventType, now, h'[|h|..])
  }

  lemma OfferedIsTold(before: seq<Hook>, h: seq<Event>, after: seq<Hook>, h': seq<Event>, n: nat, eventType: string,
                      now: int)
    requires HooksAgree(before, h) && n <= |before| && Offered(before, after, n, eventType, now)
    requires h' == h + Fires(before, n, eventType, now)
    ensures Told(before, h, after, h', n, eventType, now)
  {
    OfferedIsMarked(before, after, h, n, eventType, now);
    FiresAreWanted(before, h, n, eventType, now);
    assert h'[|h|..] == Fires(before, n, eventType, now);
  }
}
