/** What holds of every history a scheduler can leave behind: which minutes the loop
    consumes, how often, and what the stored next minute means. */
module SchedulerRuns {
  import opened Outcomes
  import opened Calendar
  import opened Cron
  import opened JobHistory

  // ---------- The stored minute ----------

  /** The row holds the least matching minute after the clock reading it was computed from. */
  ghost predicate DueSound(lane: Lane, now: Instant) {
    && (lane.due.Some? ==>
          var d := lane.due.value;
          d.at <= now && NextAfter(d.from, d.at) == At(d.minute) && LeastAfter(Hits(d.from), d.at, d.minute))
    && (lane.stored ==> lane.due.Some? && lane.expr == Some(lane.due.value.from))
  }

  lemma DueStep(h: seq<Event>, ev: Event, id: string)
    requires Allowed(h, ev) && DueSound(LaneOf(h, id), Clock(h))
    ensures DueSound(LaneAfter(LaneOf(h, id), ev, id), Clock(h + [ev]))
    ensures Clock(h) <= Clock(h + [ev])
  {
    LegalStep(h, ev);
    if ev.Registered? && ev.next.At? {
      NextIsLeast(Hits(ev.expr), ev.at, ev.next.minute);
    }
    if ev.Fired? && ev.next.At? {
      NextIsLeast(Hits(LaneOf(h, ev.id).expr.value), ev.call.end, ev.next.minute);
    }
  }

  /** In every history the row is sound, and once a call has written it for the registration
      in memory it belongs to that expression. */
  lemma {:induction false} DueIsLeast(h: seq<Event>, id: string)
    requires Legal(h)
    ensures DueSound(LaneOf(h, id), Clock(h))
  {
    if h != [] {
      var init, ev := h[..|h| - 1], h[|h| - 1];
      DueIsLeast(init, id);
      DueStep(init, ev, id);
      assert init + [ev] == h;
    }
  }

  ghost predicate RowAhead(lane: Lane, now: Instant) {
    lane.stored && lane.due.Some? && lane.due.value.minute < END_MINUTE && StartOf(lane.due.value.minute) > now
  }

  /** After a fire, callback failure or not, the row is this registration's and shows a minute
      after the fire exactly when there is a row and the search of that fire found a minute. */
  lemma AfterFire(h: seq<Event>, ev: Event)
    requires Legal(h + [ev]) && ev.Fired?
    ensures RowAhead(LaneOf(h + [ev], ev.id), ev.call.end) <==> ev.next.At? && LaneOf(h, ev.id).due.Some?
  {
    LegalStep(h, ev);
    LaneStep(h, ev, ev.id);
    DueIsLeast(h, ev.id);
    DueIsLeast(h + [ev], ev.id);
    var lane := LaneOf(h, ev.id);
    if !ev.next.At? && RowAhead(lane, ev.call.end) {
      StillAhead(Hits(lane.due.value.from), lane.due.value.at, ev.call.end, lane.due.value.minute);
    }
  }

  /** A minute found earlier and still ahead would be found again. */
  lemma StillAhead(hit: nat -> bool, s: Instant, t: Instant, m: nat)
    requires s <= t && NextHit(hit, s) == At(m) && m < END_MINUTE && StartOf(m) > t
    ensures NextHit(hit, t).At?
  {
    NextExact(hit, s);
    AfterMeansLater(t, m);
    NextExists(hit, t, m);
  }

  // ---------- The minutes that ticks consume ----------

  /** The due minutes that ticks have fired for since the registration of the job. */
  ghost function Consumed(h: seq<Event>, id: string): seq<nat> {
    if h == [] then [] else ConsumedAfter(Consumed(h[..|h| - 1], id), h[|h| - 1], id)
  }

  ghost function ConsumedAfter(before: seq<nat>, ev: Event, id: string): seq<nat> {
    match ev
    case Registered(j, _, _, _) => if j == id then [] else before
    case Deregistered(j) => if j == id then [] else before
    case Fired(j, Loop(_, m), _, _) => if j == id then before + [m] else before
    case _ => before
  }

  /** How many of them were in the row before any call since the registration wrote it. */
  ghost function Stale(h: seq<Event>, id: string): nat {
    if h == [] then 0
    else
      var before := Stale(h[..|h| - 1], id);
      match h[|h| - 1]
      case Registered(j, _, _, _) => if j == id then 0 else before
      case Deregistered(j) => if j == id then 0 else before
      case Fired(j, Loop(_, _), _, _) => if j == id && !LaneOf(h[..|h| - 1], id).stored then before + 1 else before
      case _ => before
  }

  /** The clock reading of the latest registration. */
  ghost function Since(h: seq<Event>, id: string): Instant {
    if h == [] then 0
    else
      match h[|h| - 1]
      case Registered(j, _, at, _) => if j == id then at else Since(h[..|h| - 1], id)
      case _ => Since(h[..|h| - 1], id)
  }

  /** No tick since the registration has fired for the minute in the row. */
  ghost predicate Unspent(h: seq<Event>, id: string) {
    h == [] || UnspentAfter(Unspent(h[..|h| - 1], id), h[|h| - 1], id)
  }

  ghost predicate UnspentAfter(before: bool, ev: Event, id: string) {
    match ev
    case Registered(j, _, _, _) => j == id || before
    case Deregistered(j) => j == id || before
    case Fired(j, cause, _, next) => if j == id then next.At? || (before && cause.Manual?) else before
    case _ => before
  }

  /** Every fire of a tick since the registration found an unspent minute. */
  ghost predicate NoRepeat(h: seq<Event>, id: string) {
    h == [] ||
    match h[|h| - 1]
    case Registered(j, _, _, _) => j == id || NoRepeat(h[..|h| - 1], id)
    case Deregistered(j) => j == id || NoRepeat(h[..|h| - 1], id)
    case Fired(j, Loop(_, _), _, _) => (j == id ==> Unspent(h[..|h| - 1], id)) && NoRepeat(h[..|h| - 1], id)
    case _ => NoRepeat(h[..|h| - 1], id)
  }

  /** The event starts a new record. */
  predicate Resets(ev: Event, id: string) {
    (ev.Registered? || ev.Deregistered?) && ev.id == id
  }

  lemma RecordStep(h: seq<Event>, ev: Event, id: string)
    ensures Consumed(h + [ev], id) == ConsumedAfter(Consumed(h, id), ev, id)
    ensures Unspent(h + [ev], id) <==> UnspentAfter(Unspent(h, id), ev, id)
    ensures Since(h + [ev], id) == if ev.Registered? && ev.id == id then ev.at else Since(h, id)
    ensures NoRepeat(h + [ev], id)
            <==> Resets(ev, id) || (NoRepeat(h, id) && (LoopFire(ev) && ev.id == id ==> Unspent(h, id)))
    ensures Stale(h + [ev], id)
            == if Resets(ev, id) then 0
               else Stale(h, id) + if LoopFire(ev) && ev.id == id && !LaneOf(h, id).stored then 1 else 0
  {
    assert (h + [ev])[..|h|] == h;
  }

  // ---------- Never back ----------

  ghost predicate Increasing(s: seq<nat>) {
    forall i, j :: 0 <= i < j < |s| ==> s[i] < s[j]
  }

  ghost predicate NeverBack(s: seq<nat>) {
    forall i, j :: 0 <= i < j < |s| ==> s[i] <= s[j]
  }

  ghost predicate AllAtMost(s: seq<nat>, m: nat) {
    forall i :: 0 <= i < |s| ==> s[i] <= m
  }

  ghost predicate AllBelow(s: seq<nat>, m: nat) {
    forall i :: 0 <= i < |s| ==> s[i] < m
  }

  lemma OneMoreMinute(s: seq<nat>, m: nat)
    requires NeverBack(s) && AllAtMost(s, m)
    ensures NeverBack(s + [m]) && AllAtMost(s + [m], m) && !AllBelow(s + [m], m)
    ensures Increasing(s + [m]) <==> Increasing(s) && AllBelow(s, m)
  {
    var t := s + [m];
    assert t[|s|] == m && forall i :: 0 <= i < |s| ==> t[i] == s[i];
  }

  /** The minute has begun. */
  ghost predicate Begun(m: nat, now: Instant) {
    m < END_MINUTE && StartOf(m) <= now
  }

  ghost predicate AllBegun(s: seq<nat>, now: Instant) {
    forall i :: 0 <= i < |s| ==> Begun(s[i], now)
  }

  lemma BegunLater(s: seq<nat>, now: Instant, later: Instant)
    requires AllBegun(s, now) && now <= later
    ensures AllBegun(s, later)
  {
    forall i | 0 <= i < |s| ensures Begun(s[i], later) {
      assert Begun(s[i], now);
    }
  }

  lemma BegunIsBefore(s: seq<nat>, now: Instant, m: nat)
    requires AllBegun(s, now) && m < END_MINUTE && StartOf(m) > now
    ensures AllBelow(s, m) && AllAtMost(s, m)
  {
    forall i | 0 <= i < |s| ensures s[i] < m {
      assert Begun(s[i], now);
    }
  }

  /** What the consumed minutes `s` are, with the minute in the row, if there is one. */
  ghost predicate Sound(s: seq<nat>, row: Option<nat>, now: Instant, unspent: bool, noRepeat: bool) {
    && NeverBack(s) && AllBegun(s, now)
    && (Increasing(s) <==> noRepeat)
    && (row.None? ==> s == [])
    && (row.Some? ==> AllAtMost(s, row.value) && (AllBelow(s, row.value) <==> unspent))
  }

  lemma SoundLater(s: seq<nat>, row: Option<nat>, now: Instant, later: Instant, unspent: bool, noRepeat: bool)
    requires Sound(s, row, now, unspent, noRepeat) && now <= later
    ensures Sound(s, row, later, unspent, noRepeat)
  {
    BegunLater(s, now, later);
  }

  /** A tick fires for the minute in the row. */
  lemma SoundSpent(s: seq<nat>, m: nat, now: Instant, later: Instant, unspent: bool, noRepeat: bool)
    requires Sound(s, Some(m), now, unspent, noRepeat) && now <= later && Begun(m, later)
    ensures Sound(s + [m], Some(m), later, false, noRepeat && unspent)
  {
    OneMoreMinute(s, m);
    BegunLater(s, now, later);
  }

  /** A fire that ended at `now` stores a new minute. */
  lemma SoundStored(s: seq<nat>, m: nat, next: nat, now: Instant, unspent: bool, noRepeat: bool)
    requires Sound(s, Some(m), now, unspent, noRepeat)
    requires next < END_MINUTE && StartOf(next) > now
    ensures Sound(s, Some(next), now, true, noRepeat)
  {
    BegunIsBefore(s, now, next);
  }

  ghost function RowMinute(due: Option<Due>): Option<nat> {
    if due.Some? then Some(due.value.minute) else None
  }

  ghost predicate SoundAt(h: seq<Event>, id: string) {
    Sound(Consumed(h, id), RowMinute(LaneOf(h, id).due), Clock(h), Unspent(h, id), NoRepeat(h, id))
  }

  /** In every history the minutes that ticks consume for a registration have begun and never
      go back; they strictly increase exactly when every tick found its minute unspent. */
  lemma {:induction false} TicksAdvance(h: seq<Event>, id: string)
    requires Legal(h)
    ensures SoundAt(h, id)
  {
    if h != [] {
      var init, ev := h[..|h| - 1], h[|h| - 1];
      assert init + [ev] == h;
      TicksAdvance(init, id);
      if ev.Fired? && ev.id == id {
        FireAdvances(init, id, ev);
      } else {
        OtherEvent(init, id, ev);
      }
    }
  }

  lemma OtherEvent(h: seq<Event>, id: string, ev: Event)
    requires Legal(h) && Allowed(h, ev) && SoundAt(h, id) && !(ev.Fired? && ev.id == id)
    ensures SoundAt(h + [ev], id)
  {
    LegalStep(h, ev);
    LaneStep(h, ev, id);
    RecordStep(h, ev, id);
    DueIsLeast(h, id);
    DueStep(h, ev, id);
    if !Resets(ev, id) {
      SoundLater(Consumed(h, id), RowMinute(LaneOf(h, id).due), Clock(h), Clock(h + [ev]), Unspent(h, id),
                 NoRepeat(h, id));
    }
  }

  /** What a fire that ended at `end` makes of a sound record: a tick's or a manual one, which
      stored the minute `next` or none. */
  lemma FireSound(s: seq<nat>, row: Option<nat>, now: Instant, end: Instant,
                  unspent: bool, noRepeat: bool, tick: bool, next: Option<nat>)
    requires Sound(s, row, now, unspent, noRepeat) && now <= end
    requires tick ==> row.Some? && Begun(row.value, end)
    requires next.Some? ==> next.value < END_MINUTE && StartOf(next.value) > end
    ensures Sound(if tick then s + [row.value] else s, if row.Some? && next.Some? then next else row, end,
                  next.Some? || (unspent && !tick), noRepeat && (tick ==> unspent))
  {
    if tick {
      SoundSpent(s, row.value, now, end, unspent, noRepeat);
      if next.Some? {
        SoundStored(s + [row.value], row.value, next.value, end, false, noRepeat && unspent);
      }
    } else {
      SoundLater(s, row, now, end, unspent, noRepeat);
      if row.Some? && next.Some? {
        SoundStored(s, row.value, next.value, end, unspent, noRepeat);
      }
    }
  }

  function Minute(next: Next): Option<nat> {
    if next.At? then Some(next.minute) else None
  }

  /** The record after a fire. */
  lemma FireRecord(h: seq<Event>, ev: Event, id: string)
    requires Allowed(h, ev) && ev.Fired? && ev.id == id
    ensures ev.cause.Loop? ==> LaneOf(h, id).due.Some? && Begun(LaneOf(h, id).due.value.minute, ev.call.end)
    ensures Consumed(h + [ev], id)
            == if ev.cause.Loop? then Consumed(h, id) + [LaneOf(h, id).due.value.minute] else Consumed(h, id)
    ensures Since(h + [ev], id) == Since(h, id) && Clock(h + [ev]) == ev.call.end && Clock(h) <= ev.call.end
    ensures Unspent(h + [ev], id) <==> ev.next.At? || (Unspent(h, id) && !ev.cause.Loop?)
    ensures NoRepeat(h + [ev], id) <==> NoRepeat(h, id) && (ev.cause.Loop? ==> Unspent(h, id))
    ensures RowMinute(LaneOf(h + [ev], id).due)
            == if LaneOf(h, id).due.Some? && ev.next.At? then Minute(ev.next) else RowMinute(LaneOf(h, id).due)
  {
    LegalStep(h, ev);
    LaneStep(h, ev, id);
    RecordStep(h, ev, id);
  }

  lemma StoredAhead(hit: nat -> bool, end: Instant, next: Next)
    requires next == NextHit(hit, end)
    ensures next.At? ==> next.minute < END_MINUTE && hit(next.minute) && StartOf(next.minute) > end
  {
    if next.At? {
      NextIsLeast(hit, end, next.minute);
    }
  }

  lemma FireAdvances(h: seq<Event>, id: string, ev: Event)
    requires Allowed(h, ev) && SoundAt(h, id) && ev.Fired? && ev.id == id
    ensures SoundAt(h + [ev], id)
  {
    StoredAhead(Hits(LaneOf(h, id).expr.value), ev.call.end, ev.next);
    FireRecord(h, ev, id);
    FireSound(Consumed(h, id), RowMinute(LaneOf(h, id).due), Clock(h), ev.call.end,
              Unspent(h, id), NoRepeat(h, id), ev.cause.Loop?, Minute(ev.next));
  }

  // ---------- Matching minutes, and stale ones ----------

  /** A fire was for a matching minute after the registration that has begun. */
  ghost predicate InWindow(hit: nat -> bool, m: nat, since: Instant, now: Instant) {
    m < END_MINUTE && hit(m) && since < StartOf(m) <= now
  }

  /** The minute does not match, or is not after the registration. */
  ghost predicate Misses(hit: nat -> bool, m: nat, since: Instant) {
    !(m < END_MINUTE && hit(m) && since < StartOf(m))
  }

  /** The first `k` of the minutes miss, the others are in the window. */
  ghost predicate SplitAt(hit: nat -> bool, s: seq<nat>, k: nat, since: Instant, now: Instant) {
    && k <= |s|
    && (forall i :: 0 <= i < k ==> Misses(hit, s[i], since))
    && forall i :: k <= i < |s| ==> InWindow(hit, s[i], since, now)
  }

  lemma SplitLater(hit: nat -> bool, s: seq<nat>, k: nat, since: Instant, now: Instant, later: Instant)
    requires SplitAt(hit, s, k, since, now) && now <= later
    ensures SplitAt(hit, s, k, since, later)
  {
    forall i | k <= i < |s| ensures InWindow(hit, s[i], since, later) {
      assert InWindow(hit, s[i], since, now);
    }
  }

  lemma OneMoreSplit(hit: nat -> bool, s: seq<nat>, k: nat, since: Instant, now: Instant, m: nat, stored: bool)
    requires SplitAt(hit, s, k, since, now)
    requires if stored then InWindow(hit, m, since, now) else k == |s| && Misses(hit, m, since)
    ensures SplitAt(hit, s + [m], if stored then k else k + 1, since, now)
  {
    var t := s + [m];
    assert t[|s|] == m && forall i :: 0 <= i < |s| ==> t[i] == s[i];
  }

  /** What is in the row: a matching minute after the registration once a call since has
      written it, and until then a minute that misses. */
  ghost predicate RowFits(hit: nat -> bool, row: Option<nat>, stored: bool, since: Instant) {
    if stored then row.Some? && !Misses(hit, row.value, since) else row.Some? ==> Misses(hit, row.value, since)
  }

  ghost predicate FitsAt(h: seq<Event>, id: string, e: Expr) {
    var lane := LaneOf(h, id);
    && RowFits(Hits(e), RowMinute(lane.due), lane.stored, Since(h, id))
    && SplitAt(Hits(e), Consumed(h, id), Stale(h, id), Since(h, id), Clock(h))
    && (!lane.stored ==> Stale(h, id) == |Consumed(h, id)|)
    && Since(h, id) <= Clock(h)
  }

  /** A refused registration leaves a row that misses: within its own sweep, what the row shows
      lies within the sweep of the refusal as well. */
  lemma OldRowMisses(old': Expr, from: Instant, m: nat, e: Expr, at: Instant)
    requires NextAfter(old', from) == At(m) && from <= at && !NextAfter(e, at).At?
    ensures Misses(Hits(e), m, at)
  {
    NextExact(Hits(old'), from);
    NextExact(Hits(e), at);
    if m < END_MINUTE && StartOf(m) > at {
      AfterMeansLater(at, m);
    }
  }

  /** In every history, for the job in memory: the minutes that ticks consumed before a call
      wrote the row miss, and all later ones match, lie after the registration and have begun. */
  lemma {:induction false} TicksFit(h: seq<Event>, id: string, e: Expr)
    requires Legal(h) && LaneOf(h, id).expr == Some(e)
    ensures FitsAt(h, id, e)
  {
    var init, ev := h[..|h| - 1], h[|h| - 1];
    assert init + [ev] == h;
    if ev.Registered? && ev.id == id {
      RegistrationFits(init, id, ev);
    } else {
      TicksFit(init, id, e);
      if ev.Fired? && ev.id == id {
        FireFits(init, id, e, ev);
      } else {
        OtherFits(init, id, e, ev);
      }
    }
  }

  lemma RegistrationFits(h: seq<Event>, id: string, ev: Event)
    requires Legal(h) && Allowed(h, ev) && ev.Registered? && ev.id == id
    ensures FitsAt(h + [ev], id, ev.expr)
  {
    LegalStep(h, ev);
    LaneStep(h, ev, id);
    RecordStep(h, ev, id);
    StoredAhead(Hits(ev.expr), ev.at, ev.next);
    DueIsLeast(h, id);
    var due := LaneOf(h, id).due;
    if !ev.next.At? && due.Some? {
      OldRowMisses(due.value.from, due.value.at, due.value.minute, ev.expr, ev.at);
    }
  }

  lemma OtherFits(h: seq<Event>, id: string, e: Expr, ev: Event)
    requires Allowed(h, ev) && Foreign(ev, id) && FitsAt(h, id, e)
    ensures FitsAt(h + [ev], id, e)
  {
    LegalStep(h, ev);
    LaneStep(h, ev, id);
    RecordStep(h, ev, id);
    assert Clock(h) <= Clock(h + [ev]);
    SplitLater(Hits(e), Consumed(h, id), Stale(h, id), Since(h, id), Clock(h), Clock(h + [ev]));
  }

  lemma FireFits(h: seq<Event>, id: string, e: Expr, ev: Event)
    requires Allowed(h, ev) && LaneOf(h, id).expr == Some(e) && FitsAt(h, id, e) && ev.Fired? && ev.id == id
    ensures FitsAt(h + [ev], id, e)
  {
    StoredAhead(Hits(e), ev.call.end, ev.next);
    FireRecord(h, ev, id);
    StaleStep(h, ev, id);
    SplitLater(Hits(e), Consumed(h, id), Stale(h, id), Since(h, id), Clock(h), ev.call.end);
    if ev.cause.Loop? {
      OneMoreSplit(Hits(e), Consumed(h, id), Stale(h, id), Since(h, id), ev.call.end,
                   LaneOf(h, id).due.value.minute, LaneOf(h, id).stored);
    }
  }

  lemma StaleStep(h: seq<Event>, ev: Event, id: string)
    requires Allowed(h, ev) && ev.Fired? && ev.id == id
    ensures Stale(h + [ev], id) == Stale(h, id) + if ev.cause.Loop? && !LaneOf(h, id).stored then 1 else 0
    ensures LaneOf(h + [ev], id).stored <==> LaneOf(h, id).stored || (ev.next.At? && LaneOf(h, id).due.Some?)
  {
    RecordStep(h, ev, id);
    LaneStep(h, ev, id);
  }

  /** A fire of a tick is for a matching minute after the registration that has begun if and
      only if some call since the registration had written the row. */
  lemma FireMatchesIffStored(h: seq<Event>, ev: Event, e: Expr)
    requires Legal(h + [ev]) && LoopFire(ev) && LaneOf(h, ev.id).expr == Some(e)
    ensures InWindow(Hits(e), ev.cause.minute, Since(h, ev.id), ev.call.end) <==> LaneOf(h, ev.id).stored
  {
    LegalStep(h, ev);
    TicksFit(h, ev.id, e);
    FireRecord(h, ev, ev.id);
  }

  // ---------- The loop of the scheduler ----------

  /** Ticks run by `_run_loop` never repeat a minute, and at most the first is for a stale
      one: the fire that could leave such a minute behind ends the loop. */
  lemma {:induction false} LoopNeverRepeats(h: seq<Event>, id: string)
    requires Legal(h) && Supervised(h)
    ensures NoRepeat(h, id) && Stale(h, id) <= 1
    ensures LaneOf(h, id).expr.Some? && !Crashed(h) ==> Unspent(h, id) && (Stale(h, id) == 1 ==> LaneOf(h, id).stored)
  {
    if h != [] {
      var init, ev := h[..|h| - 1], h[|h| - 1];
      assert init + [ev] == h;
      LoopNeverRepeats(init, id);
      RecordStep(init, ev, id);
      LaneStep(init, ev, id);
      LoopStep(init, ev);
    }
  }

  /** Fires of the loop consume strictly increasing minutes in every history. */
  lemma LoopAdvances(h: seq<Event>, id: string)
    requires Legal(h) && Supervised(h)
    ensures Increasing(Consumed(h, id))
    ensures LaneOf(h, id).expr.Some? && !Crashed(h) && LaneOf(h, id).due.Some?
            ==> AllBelow(Consumed(h, id), LaneOf(h, id).due.value.minute)
  {
    TicksAdvance(h, id);
    LoopNeverRepeats(h, id);
  }

  /** The number of accepted minutes in a range. */
  ghost function Count(hit: nat -> bool, lo: nat, hi: nat): nat {
    if hi <= lo then 0 else Count(hit, lo, hi - 1) + if hit(hi - 1) then 1 else 0
  }

  lemma {:induction false} CountGrows(hit: nat -> bool, lo: nat, mid: nat, hi: nat)
    requires mid <= hi
    ensures Count(hit, lo, mid) <= Count(hit, lo, hi)
    decreases hi - mid
  {
    if mid < hi {
      CountGrows(hit, lo, mid, hi - 1);
    }
  }

  lemma {:induction false} AtMostCount(hit: nat -> bool, s: seq<nat>, lo: nat, hi: nat)
    requires Increasing(s) && forall i :: 0 <= i < |s| ==> lo <= s[i] < hi && hit(s[i])
    ensures |s| <= Count(hit, lo, hi)
  {
    if s != [] {
      var init, last := s[..|s| - 1], s[|s| - 1];
      AtMostCount(hit, init, lo, last);
      CountGrows(hit, lo, last + 1, hi);
    }
  }

  lemma LoopSplit(h: seq<Event>, id: string, e: Expr)
    requires Legal(h) && Supervised(h) && LaneOf(h, id).expr == Some(e)
    ensures Increasing(Consumed(h, id)) && Stale(h, id) <= 1
    ensures SplitAt(Hits(e), Consumed(h, id), Stale(h, id), Since(h, id), Clock(h))
  {
    LoopAdvances(h, id);
    LoopNeverRepeats(h, id);
    TicksFit(h, id, e);
  }

  /** The loop never fires more often than minutes match between the registration and now,
      but for a first fire for a minute that no call since the registration had stored. */
  lemma FiresAtMostMatches(h: seq<Event>, id: string, e: Expr)
    requires Legal(h) && Supervised(h) && LaneOf(h, id).expr == Some(e)
    ensures Stale(h, id) <= 1 && Stale(h, id) <= |Consumed(h, id)|
    ensures |Consumed(h, id)|
            <= Count(Hits(e), MinuteOf(Since(h, id)) + 1, MinuteOf(Clock(h)) + 1) + Stale(h, id)
  {
    LoopSplit(h, id, e);
    WindowCount(Hits(e), Consumed(h, id), Stale(h, id), Since(h, id), Clock(h));
  }

  lemma WindowCount(hit: nat -> bool, s: seq<nat>, k: nat, since: Instant, now: Instant)
    requires Increasing(s) && SplitAt(hit, s, k, since, now)
    ensures |s| <= Count(hit, MinuteOf(since) + 1, MinuteOf(now) + 1) + k
  {
    var rest := s[k..];
    forall i | 0 <= i < |rest| ensures MinuteOf(since) < rest[i] <= MinuteOf(now) && hit(rest[i]) {
      assert InWindow(hit, s[k + i], since, now);
      AfterMeansLater(since, rest[i]);
      AfterMeansLater(now, rest[i]);
    }
    AtMostCount(hit, rest, MinuteOf(since) + 1, MinuteOf(now) + 1);
  }

  // ---------- Expressions whose search never fails ----------

  /** Day `*`, or weekday `*` with a date of the common year. */
  ghost predicate Perennial(e: Expr) {
    Valid(e) && (EveryDay(e) || (EveryWeekday(e) && YearlyDate(e)))
  }

  lemma PerennialFound(e: Expr, dt: Instant)
    requires Perennial(e) && DateAt(dt).year < 9999
    ensures NextAfter(e, dt).At?
  {
    if EveryDay(e) {
      DayStar(e, dt);
    } else {
      WeekdayStarYearly(e, dt);
    }
  }

  lemma YearsMonotone(s: Instant, t: Instant)
    requires s <= t
    ensures DateAt(s).year <= DateAt(t).year
  {
    DatesInOrder(DayOfMinute(MinuteOf(s)), DayOfMinute(MinuteOf(t)));
  }

  /** With such an expression even ticks called one by one never repeat a minute, and none is
      for a stale one. */
  lemma {:induction false} PerennialNeverRepeats(h: seq<Event>, id: string, e: Expr)
    requires Legal(h) && LaneOf(h, id).expr == Some(e)
    requires Perennial(e) && DateAt(Clock(h)).year < 9999
    ensures NoRepeat(h, id) && Unspent(h, id) && LaneOf(h, id).stored && Stale(h, id) == 0
  {
    var init, ev := h[..|h| - 1], h[|h| - 1];
    assert init + [ev] == h;
    RecordStep(init, ev, id);
    LaneStep(init, ev, id);
    LegalStep(init, ev);
    if ev.Registered? && ev.id == id {
      PerennialFound(e, ev.at);
    } else {
      YearsMonotone(Clock(init), Clock(h));
      PerennialNeverRepeats(init, id, e);
      if ev.Fired? && ev.id == id {
        PerennialFound(e, ev.call.end);
      }
    }
  }

  /** A fire of such a job raises exactly when its callback does. */
  lemma OnlyCallbackRaises(h: seq<Event>, ev: Event, e: Expr)
    requires Allowed(h, ev) && ev.Fired? && LaneOf(h, ev.id).expr == Some(e)
    requires Perennial(e) && DateAt(ev.call.end).year < 9999
    ensures Raising(ev) <==> ev.call.failed
  {
    PerennialFound(e, ev.call.end);
  }

  // ---------- One raise silences the loop ----------

  /** After a fire of the loop that raised, no job is fired by the loop until a restart. */
  lemma {:induction false} RaiseSilencesLoop(h: seq<Event>, ev: Event, events: seq<Event>)
    requires LoopFire(ev) && Raising(ev) && Supervised(h + [ev] + events)
    requires forall i :: 0 <= i < |events| ==> !events[i].Restarted?
    ensures Crashed(h + [ev] + events) && forall i :: 0 <= i < |events| ==> !LoopFire(events[i])
  {
    LoopStep(h, ev);
    if events == [] {
      assert h + [ev] + [] == h + [ev];
    } else {
      var init, last := events[..|events| - 1], events[|events| - 1];
      assert h + [ev] + events == (h + [ev] + init) + [last];
      LoopStep(h + [ev] + init, last);
      RaiseSilencesLoop(h, ev, init);
    }
  }

  /** Such a fire can happen to any job that is due while the loop runs: its callback raises. */
  lemma CallbackEndsLoop(h: seq<Event>, id: string, e: Expr, tick: Instant, call: Call)
    requires Legal(h) && Supervised(h) && !Crashed(h)
    requires LaneOf(h, id).expr == Some(e) && IsDue(h, id, tick)
    requires Clock(h) <= tick <= call.start <= call.end && call.failed
    ensures var ev := DueFire(h, e, id, tick, call);
            Legal(h + [ev]) && Supervised(h + [ev]) && Crashed(h + [ev])
  {
    LegalStep(h, DueFire(h, e, id, tick, call));
    LoopStep(h, DueFire(h, e, id, tick, call));
  }

  // ---------- Consecutive fires: missed minutes are coalesced ----------

  /** An event that neither concerns the job nor restarts the process. */
  ghost predicate Foreign(ev: Event, id: string) {
    !ev.Restarted? && ev.id != id
  }

  ghost predicate ManualFire(ev: Event, id: string) {
    ev.Fired? && ev.id == id && ev.cause.Manual?
  }

  /** The end of the last fire among `events` that stored a minute, at first `end`. */
  ghost function LastStored(end: Instant, events: seq<Event>, id: string): Instant {
    if events == [] then end
    else
      var last := events[|events| - 1];
      if last.Fired? && last.id == id && last.next.At? then last.call.end
      else LastStored(end, events[..|events| - 1], id)
  }

  lemma {:induction false} BetweenFires(h: seq<Event>, events: seq<Event>, id: string)
    requires Legal(h + events) && LaneOf(h, id).stored
    requires forall i :: 0 <= i < |events| ==> Foreign(events[i], id) || ManualFire(events[i], id)
    ensures Clock(h) <= Clock(h + events)
    ensures LaneOf(h + events, id).stored && LaneOf(h + events, id).expr == LaneOf(h, id).expr
    ensures LaneOf(h + events, id).due.Some? && LaneOf(h, id).due.Some?
    ensures LaneOf(h + events, id).due.value.at == LastStored(LaneOf(h, id).due.value.at, events, id)
  {
    DueIsLeast(h + events, id);
    if events == [] {
      assert h + events == h;
    } else {
      var init, last := events[..|events| - 1], events[|events| - 1];
      assert h + events == (h + init) + [last];
      LegalStep(h + init, last);
      LaneStep(h + init, last, id);
      BetweenFires(h, init, id);
    }
  }

  /** Of two consecutive fires of the loop for one registration, with manual fires and
      anything else between them, the first stored a minute, and the second is for the
      first matching minute after the end of the last fire that stored one: all minutes
      that matched before are coalesced. */
  lemma ConsecutiveFires(h: seq<Event>, e: Expr, first: Event, between: seq<Event>, second: Event)
    requires Legal(h + [first] + between + [second]) && Supervised(h + [first] + between + [second])
    requires LoopFire(first) && LoopFire(second) && first.id == second.id && LaneOf(h, first.id).expr == Some(e)
    requires forall i :: 0 <= i < |between| ==> Foreign(between[i], first.id) || ManualFire(between[i], first.id)
    ensures first.next.At? && !first.call.failed
    ensures second.cause.minute > first.cause.minute
    ensures LeastAfter(Hits(e), LastStored(first.call.end, between, first.id), second.cause.minute)
  {
    var id, g := first.id, h + [first] + between;
    LoopStep(g, second);
    LegalStep(g, second);
    if Raising(first) {
      RaiseSilencesLoop(h, first, between);
    }
    LaneStep(h, first, id);
    Shortened(h + [first], between);
    LegalStep(h, first);
    BetweenFires(h + [first], between, id);
    DueIsLeast(g, id);
    StoredNotBefore(h + [first], between, id, first.call.end);
  }

  lemma {:induction false} Shortened(h: seq<Event>, events: seq<Event>)
    requires Legal(h + events)
    ensures Legal(h)
  {
    if events == [] {
      assert h + events == h;
    } else {
      assert h + events == (h + events[..|events| - 1]) + [events[|events| - 1]];
      LegalStep(h + events[..|events| - 1], events[|events| - 1]);
      Shortened(h, events[..|events| - 1]);
    }
  }

  lemma {:induction false} StoredNotBefore(h: seq<Event>, events: seq<Event>, id: string, end: Instant)
    requires Legal(h + events) && end <= Clock(h)
    ensures end <= LastStored(end, events, id) && end <= Clock(h + events)
  {
    if events == [] {
      assert h + events == h;
    } else {
      var init, last := events[..|events| - 1], events[|events| - 1];
      assert h + events == (h + init) + [last];
      LegalStep(h + init, last);
      StoredNotBefore(h, init, id, end);
    }
  }

  // ---------- Where the code falls short ----------

  /** A job whose registration was refused for want of an upcoming minute stays in memory, and
      the loop fires it for the minute in a row that an earlier process left, which does not
      match or is not after the registration.  If that fire finds no minute either, it ends the
      loop and leaves the row, so that the next process can repeat all of it; otherwise the row
      is this registration's from then on. */
  lemma RefusedJobFires(h: seq<Event>, id: string, e: Expr, at: Instant, tick: Instant, call: Call)
    requires Legal(h) && Supervised(h) && !Crashed(h) && Clock(h) <= at <= tick
    requires LaneOf(h, id).expr.None? && IsDue(h, id, tick) && !NextAfter(e, at).At?
    requires tick <= call.start <= call.end
    ensures var refused := Registered(id, e, at, NextAfter(e, at));
            var m := LaneOf(h, id).due.value.minute;
            var g := h + [refused] + [Fired(id, Loop(tick, m), call, NextAfter(e, call.end))];
            && Legal(g) && Supervised(g) && Misses(Hits(e), m, at)
            && (NextAfter(e, call.end).At? <==> LaneOf(g, id).stored)
            && (!NextAfter(e, call.end).At? ==>
                  && Crashed(g) && Legal(g + [Restarted]) && Supervised(g + [Restarted]) && !Crashed(g + [Restarted])
                  && LaneOf(g + [Restarted], id) == Lane(None, LaneOf(h, id).due, false))
  {
    var refused := Registered(id, e, at, NextAfter(e, at));
    var due := LaneOf(h, id).due.value;
    var fire := Fired(id, Loop(tick, due.minute), call, NextAfter(e, call.end));
    DueIsLeast(h, id);
    OldRowMisses(due.from, due.at, due.minute, e, at);
    EventStep(h, refused, id);
    EventStep(h + [refused], fire, id);
    EventStep(h + [refused] + [fire], Restarted, id);
  }

  /** An expression that can be written, has matching minutes, and is refused on 1 March 2024. */
  lemma RefusedExpression(at: Instant, day: Date) returns (text: string, e: Expr)
    requires day == DateAt(at) && day.year == 2024 && day.month == 3 && day.day == 1
    ensures IsParse(text, Ok(e)) && LeapMondays(e) && !NextAfter(e, at).At?
  {
    text, e := LeapMondayText();
    StartDay(at, day);
    SweepMisses(e, at);
  }

  lemma EventStep(h: seq<Event>, ev: Event, id: string)
    ensures Legal(h + [ev]) <==> Legal(h) && Allowed(h, ev)
    ensures Clock(h + [ev]) == if ev.Registered? then ev.at else if ev.Fired? then ev.call.end else Clock(h)
    ensures LaneOf(h + [ev], id) == LaneAfter(LaneOf(h, id), ev, id)
    ensures Crashed(h + [ev]) <==> !ev.Restarted? && (Crashed(h) || (LoopFire(ev) && Raising(ev)))
    ensures Supervised(h + [ev]) <==> Supervised(h) && (LoopFire(ev) ==> !Crashed(h))
  {
    LegalStep(h, ev);
    LaneStep(h, ev, id);
    LoopStep(h, ev);
  }

  /** Such a history: an earlier process registered the job with an expression that had an
      upcoming minute, and ended. */
  lemma StaleRow(id: string, was: Expr, from: Instant, at: Instant)
    requires NextAfter(was, from).At? && NextAfter(was, from).minute < END_MINUTE && from <= at
    requires StartOf(NextAfter(was, from).minute) <= at
    ensures var h := [Registered(id, was, from, NextAfter(was, from)), Restarted];
            && Legal(h) && Supervised(h) && !Crashed(h) && Clock(h) <= at
            && LaneOf(h, id).expr.None? && IsDue(h, id, at)
  {
    var ev := Registered(id, was, from, NextAfter(was, from));
    EventStep([], ev, id);
    EventStep([ev], Restarted, id);
    assert [] + [ev] == [ev] && [ev] + [Restarted] == [ev, Restarted];
  }
}
