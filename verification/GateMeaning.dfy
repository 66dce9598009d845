/** The entries of the trail by name, and the steps that statuses and entries come from
    (ota_core/policy/gates.py). */
module GateMeaning {
  import opened Outcomes
  import opened GateTrail
  import opened GateBatches
  import opened GateRuns
  import opened Sorting

  /** The trail has an entry of the type for the gate. */
  ghost predicate HasEntry(log: seq<Entry>, pk: string, t: EventType) {
    exists i :: 0 <= i < |log| && log[i].pk == pk && log[i].eventType == t
  }

  ghost predicate HasStatus(rows: map<string, Gate>, pk: string, status: Status) {
    pk in rows && rows[pk].status == status
  }

  lemma EntryIffInHistory(log: seq<Entry>, pk: string, t: EventType)
    ensures HasEntry(log, pk, t) <==> exists e :: e in History(log, pk) && e.eventType == t
  {
    if HasEntry(log, pk, t) {
      var i :| 0 <= i < |log| && log[i].pk == pk && log[i].eventType == t;
      InHistory(log, i);
    }
    if e :| e in History(log, pk) && e.eventType == t {
      var k :| 0 <= k < |History(log, pk)| && History(log, pk)[k] == e;
      var i := EntryOf(log, pk, k);
    }
  }

  lemma EntryIffStatus(rows: map<string, Gate>, log: seq<Entry>, pk: string, t: EventType, status: Status)
    requires TrailAgrees(rows, log)
    requires status != Pending && t == DecisionType(status)
    ensures HasEntry(log, pk, t) <==> HasStatus(rows, pk, status)
  {
    EntryIffInHistory(log, pk, t);
    var h := History(log, pk);
    assert RowAgrees(rows, pk, h);
    if pk in rows && rows[pk].status != Pending {
      assert h == [h[0], h[1]];
      DistinctTypes(status, rows[pk].status);
    }
  }

  lemma DistinctTypes(s: Status, s': Status)
    requires s != Pending && s' != Pending
    ensures DecisionType(s) == DecisionType(s') <==> s == s'
    ensures DecisionType(s) != GateProposed
  {
  }

  /** Type by type: a gate was proposed if and only if it has a row, and it has the entry of a
      decision if and only if its row shows that decision. */
  lemma EntriesByName(steps: seq<Step>, pk: string)
    ensures var (rows, log) := (Run(steps).rows, Run(steps).log);
            && (HasEntry(log, pk, GateProposed) <==> pk in rows)
            && (HasEntry(log, pk, GateApproved) <==> HasStatus(rows, pk, Approved))
            && (HasEntry(log, pk, GateRejected) <==> HasStatus(rows, pk, Rejected))
            && (HasEntry(log, pk, GateModifiedAndApproved) <==> HasStatus(rows, pk, ModifiedAndApproved))
            && (HasEntry(log, pk, GateAutoApprovedBySimilarity) <==> HasStatus(rows, pk, AutoApproved))
            && (HasEntry(log, pk, GateExpired) <==> HasStatus(rows, pk, Expired))
  {
    RunIsSound(steps);
    var (rows, log) := (Run(steps).rows, Run(steps).log);
    EntryIffStatus(rows, log, pk, GateApproved, Approved);
    EntryIffStatus(rows, log, pk, GateRejected, Rejected);
    EntryIffStatus(rows, log, pk, GateModifiedAndApproved, ModifiedAndApproved);
    EntryIffStatus(rows, log, pk, GateAutoApprovedBySimilarity, AutoApproved);
    EntryIffStatus(rows, log, pk, GateExpired, Expired);
    EntryIffInHistory(log, pk, GateProposed);
    assert RowAgrees(rows, pk, History(log, pk));
  }

  // ---------- Where a status comes from ----------

  /** The step gives the gate the status: a person decides it while it is pending, an expiry
      finds it due, or its proposal meets an approved class. */
  ghost predicate Gives(r: Record, step: Step, pk: string, status: Status) {
    match status
    case Pending => false
    case AutoApproved =>
      && step.Propose? && step.pk == pk && pk !in r.rows && Fresh(step.gate) && step.offers
      && Class(step.gate).Some? && HumanApproved(r.rows, Class(step.gate).value)
    case Expired => step.Expire? && pk in step.pending && pk in r.rows && Due(r.rows[pk], step.now)
    case _ => step.Decide? && step.pk == pk && step.status == status && Open(r, pk)
  }

  lemma ProposeGives(r: Record, step: Step, pk: string, status: Status)
    requires Sound(r) && step.Propose? && status != Pending
    ensures HasStatus(Apply(r, step).rows, pk, status)
            <==> HasStatus(r.rows, pk, status) || Gives(r, step, pk, status)
  {
    if step.pk !in r.rows && Fresh(step.gate) && Class(step.gate).Some? {
      var c := Class(step.gate).value;
      ProposeStep(r.rows, r.log, step.pk, step.gate);
      PendingApprovesNothing(r.rows, step.pk, step.gate, c);
      RememberedMeansHuman(Proposed(r, step.pk, step.gate).rows, Proposed(r, step.pk, step.gate).log, c);
    }
  }

  lemma {:induction false} ExpireGives(r: Record, pending: seq<string>, now: int, clock: nat -> int, pk: string)
    ensures var s := ExpireAll(r, pending, now, clock);
            && (pk in s.rows <==> pk in r.rows)
            && (pk in r.rows ==>
                  if pk in pending && Due(r.rows[pk], now) then s.rows[pk].status == Expired
                  else s.rows[pk] == r.rows[pk])
  {
    if pending != [] {
      var n := |pending| - 1;
      ExpireGives(r, pending[..n], now, clock, pk);
      assert pending == pending[..n] + [pending[n]];
    }
  }

  lemma StepGives(r: Record, step: Step, pk: string, status: Status)
    requires Sound(r) && status != Pending
    ensures HasStatus(Apply(r, step).rows, pk, status)
            <==> HasStatus(r.rows, pk, status) || Gives(r, step, pk, status)
  {
    match step
    case Propose(_, _, _, _, _) => ProposeGives(r, step, pk, status);
    case Decide(_, _, _, _, _, _) =>
    case Expire(now, pending, clock) => ExpireGives(r, pending, now, clock, pk);
  }

  ghost predicate GivenAt(steps: seq<Step>, i: int, pk: string, status: Status) {
    0 <= i < |steps| && Gives(Run(steps[..i]), steps[i], pk, status)
  }

  /** After any run a gate has a decided status if and only if some step gave it that one:
      rejected if and only if a person rejected it while it was pending, expired if and only
      if an expiry found it due, and so on. */
  lemma {:induction false} StatusComesFromStep(steps: seq<Step>, pk: string, status: Status)
    requires status != Pending
    ensures HasStatus(Run(steps).rows, pk, status) <==> exists i :: GivenAt(steps, i, pk, status)
  {
    if steps != [] {
      var n := |steps| - 1;
      var init := steps[..n];
      StatusComesFromStep(init, pk, status);
      RunIsSound(init);
      StepGives(Run(init), steps[n], pk, status);
      forall i | 0 <= i < n ensures GivenAt(steps, i, pk, status) <==> GivenAt(init, i, pk, status) {
        assert init[..i] == steps[..i];
      }
      assert GivenAt(steps, n, pk, status) <==> Gives(Run(init), steps[n], pk, status);
      if i :| GivenAt(init, i, pk, status) {
        assert GivenAt(steps, i, pk, status);
      }
      if i :| GivenAt(steps, i, pk, status) {
        assert i < n ==> GivenAt(init, i, pk, status);
      }
    }
  }

  /** A gate has a rejected entry exactly if a person rejected it while it was pending, and an
      expired entry exactly if an expiry found it due. */
  lemma EntriesComeFromSteps(steps: seq<Step>, pk: string)
    ensures HasEntry(Run(steps).log, pk, GateRejected) <==> exists i :: GivenAt(steps, i, pk, Rejected)
    ensures HasEntry(Run(steps).log, pk, GateExpired) <==> exists i :: GivenAt(steps, i, pk, Expired)
    ensures HasEntry(Run(steps).log, pk, GateApproved) <==> exists i :: GivenAt(steps, i, pk, Approved)
    ensures HasEntry(Run(steps).log, pk, GateModifiedAndApproved)
            <==> exists i :: GivenAt(steps, i, pk, ModifiedAndApproved)
    ensures HasEntry(Run(steps).log, pk, GateAutoApprovedBySimilarity)
            <==> exists i :: GivenAt(steps, i, pk, AutoApproved)
  {
    EntriesByName(steps, pk);
    StatusComesFromStep(steps, pk, Rejected);
    StatusComesFromStep(steps, pk, Expired);
    StatusComesFromStep(steps, pk, Approved);
    StatusComesFromStep(steps, pk, ModifiedAndApproved);
    StatusComesFromStep(steps, pk, AutoApproved);
  }

  // ---------- Deadlines ----------

  /** All entries of an expiry are expired entries of its gates. */
  lemma {:induction false} ExpiryEntriesNamed(rows: map<string, Gate>, pks: seq<string>)
    requires forall pk :: pk in pks ==> pk in rows
    ensures |ExpiryEntries(rows, pks)| == |pks|
    ensures forall i :: 0 <= i < |pks| ==>
              && ExpiryEntries(rows, pks)[i].eventType == GateExpired && ExpiryEntries(rows, pks)[i].pk == pks[i]
              && ExpiryEntries(rows, pks)[i].status == Some(Expired)
  {
    if pks != [] {
      ExpiryEntriesNamed(rows, pks[..|pks| - 1]);
    }
  }

  /** From entry number `from` on the trail has one expired entry for each of the gates. */
  ghost predicate ExpiriesFrom(log: seq<Entry>, from: nat, pks: seq<string>) {
    && |log| == from + |pks|
    && forall i :: 0 <= i < |pks| ==> log[from + i].eventType == GateExpired && log[from + i].pk == pks[i]
  }

  lemma ExpiriesAppended(log: seq<Entry>, rows: map<string, Gate>, pks: seq<string>)
    requires forall pk :: pk in pks ==> pk in rows
    ensures ExpiriesFrom(log + ExpiryEntries(rows, pks), |log|, pks)
  {
    ExpiryEntriesNamed(rows, pks);
  }
}
