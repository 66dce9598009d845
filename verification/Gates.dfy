/** Human-approval gates (ota_core/policy/gates.py): the store, and the manager that
    proposes, decides and expires.  The clock and fresh identifiers are inputs. */
module Gates {
  import opened Outcomes
  import opened GateTrail
  import opened GateBatches
  import opened GateRuns
  import opened GateMeaning
  import opened Sorting

  datatype Proposal = Proposal(
    routineId: string,
    runId: string,
    gateId: string,
    modes: seq<Mode>,
    kind: Option<string>,
    summary: string,
    payload: Json,
    similarityKey: Option<string>,
    expiresAfter: Option<nat>)          // seconds

  datatype GateError = NotFound | AlreadyDecided | BadStatus

  const MICROS: int := 1_000_000

  function ModeText(m: Mode): string {
    match m
    case Approve => "approve"
    case TuneAndApprove => "tune_and_approve"
    case ApproveAndRemember => "approve_and_remember"
  }

  /** The stored result: the payload with the approval mode and the reason; None when empty. */
  function ResultWithMeta(payload: Option<Json>, mode: Option<Mode>, reason: Option<string>): Option<Json> {
    var base := if payload.Some? then payload.value else map[];
    var moded := if mode.Some? then base["_approval_mode" := ModeText(mode.value)] else base;
    var all := if reason.Some? then moded["_reason" := reason.value] else moded;
    if all == map[] then None else Some(all)
  }

  /** The proposal payload as stored, with the summary and the kind added. */
  function StoredProposal(p: Proposal): Json {
    p.payload["_summary" := p.summary]["_kind" := if p.kind.Some? then p.kind.value else "null"]
  }

  function NewGate(p: Proposal, key: Option<string>, now: int): Gate {
    Gate(p.routineId, p.runId, p.gateId, Pending, StoredProposal(p), None, key, None,
         if p.expiresAfter.Some? then Some(now + p.expiresAfter.value * MICROS) else None, now, None)
  }

  /** What a new gate records of its proposal, and when it falls due: its deadline is the
      given number of seconds after its creation. */
  lemma NewGateMeans(p: Proposal, key: Option<string>, now: int, at: int)
    ensures var g := NewGate(p, key, now);
            && g.routineId == p.routineId && g.runId == p.runId && g.gateId == p.gateId
            && g.similarityKey == key && g.createdAt == now
            && g.status == Pending && g.result == None && g.decidedAt == None && g.approvalMode == None
            && g.proposal.Keys == p.payload.Keys + {"_summary", "_kind"}
            && g.proposal["_summary"] == p.summary && (p.kind.Some? ==> g.proposal["_kind"] == p.kind.value)
            && (forall k :: k in p.payload && k != "_summary" && k != "_kind" ==> g.proposal[k] == p.payload[k])
            && (Due(g, at) <==> p.expiresAfter.Some? && at - now >= 1_000_000 * p.expiresAfter.value)
  {
  }

  /** The stored result is the payload with the mode's name and the reason added, and nothing
      is stored when there is none of them. */
  lemma ResultMeans(payload: Option<Json>, mode: Option<Mode>, reason: Option<string>)
    ensures var r := ResultWithMeta(payload, mode, reason);
            && (r == None <==> (payload == None || payload == Some(map[])) && mode == None && reason == None)
            && (reason.Some? ==> "_reason" in r.value && r.value["_reason"] == reason.value)
            && (mode == Some(Approve) ==> "_approval_mode" in r.value && r.value["_approval_mode"] == "approve")
            && (mode == Some(TuneAndApprove) ==>
                  "_approval_mode" in r.value && r.value["_approval_mode"] == "tune_and_approve")
            && (mode == Some(ApproveAndRemember) ==>
                  "_approval_mode" in r.value && r.value["_approval_mode"] == "approve_and_remember")
            && (payload.Some? && r.Some? ==>
                  forall k :: k in payload.value && k != "_reason" && k != "_approval_mode" ==>
                                k in r.value && r.value[k] == payload.value[k])
  {
    var base := if payload.Some? then payload.value else map[];
    var moded := if mode.Some? then base["_approval_mode" := ModeText(mode.value)] else base;
    var all := if reason.Some? then moded["_reason" := reason.value] else moded;
    assert mode.Some? ==> "_approval_mode" in all;
    assert reason.Some? ==> "_reason" in all;
  }

  class GateStore {
    var rows: map<string, Gate>

    constructor ()
      ensures rows == map[]
    {
      rows := map[];
    }

    method HasRememberedApproval(c: (string, string, string)) returns (found: bool)
      ensures found <==> Remembered(rows, c)
    {
      var approved := {Approved, ModifiedAndApproved, AutoApproved};
      found := exists pk | pk in rows :: Class(rows[pk]) == Some(c) && rows[pk].status in approved;
    }

    /** The pending gates by creation time; the order of equal times is the database's. */
    method ListPending() returns (pks: seq<string>)
      ensures forall pk :: pk in pks <==> pk in rows && rows[pk].status == Pending
      ensures NoRepeats(pks) && InCreationOrder(rows, pks)
    {
      pks := [];
      var left := rows.Keys;
      while left != {}
        invariant left <= rows.Keys
        invariant forall pk :: pk in pks <==> pk in rows && pk !in left && rows[pk].status == Pending
        invariant NoRepeats(pks)
      {
        var pk :| pk in left;
        if rows[pk].status == Pending {
          pks := pks + [pk];
        }
        left := left - {pk};
      }
      SortInOrder(rows, pks);
      pks := Sort(OlderFirst(rows), pks);
    }

    method UpdateDecision(pk: string, status: Status, result: Option<Json>, at: int)
      returns (r: Result<Gate, GateError>)
      modifies this
      ensures pk !in old(rows) ==> r == Err(NotFound)
      ensures pk in old(rows) && old(rows)[pk].status != Pending ==> r == Err(AlreadyDecided)
      ensures r.Err? ==> rows == old(rows) && (pk !in rows || rows[pk].status != Pending)
      ensures r.Ok? ==> rows == old(rows)[pk := Decided(old(rows)[pk], status, result, at)] && r.value == rows[pk]
    {
      if pk !in rows {
        return Err(NotFound);
      }
      if rows[pk].status != Pending {
        return Err(AlreadyDecided);
      }
      rows := rows[pk := Decided(rows[pk], status, result, at)];
      return Ok(rows[pk]);
    }
  }

  /** The audit sink as far as gates write to it. */
  class AuditTrail {
    var log: seq<Entry>

    constructor ()
      ensures log == []
    {
      log := [];
    }
  }

  class GateManager {
    const store: GateStore
    const audit: AuditTrail
    const similarity: map<string, Json -> string>

    ghost predicate Valid()
      reads store, audit
    {
      Consistent(store.rows, audit.log)
    }

    ghost function Now(): Record
      reads store, audit
    {
      Record(store.rows, audit.log)
    }

    constructor (store: GateStore, audit: AuditTrail, similarity: map<string, Json -> string>)
      ensures this.store == store && this.audit == audit && this.similarity == similarity
    {
      this.store := store;
      this.audit := audit;
      this.similarity := similarity;
    }

    function KeyOf(p: Proposal): Option<string> {
      if p.similarityKey.Some? then p.similarityKey
      else if p.gateId in similarity then Some(similarity[p.gateId](p.payload))
      else None
    }

    /** `_record_decision`. */
    method RecordDecision(pk: string, status: Status, payload: Option<Json>, mode: Option<Mode>,
                          reason: Option<string>, at: int)
      returns (r: Result<Gate, GateError>)
      requires Valid() && status != Pending
      requires status == AutoApproved && pk in store.rows ==>
                 Class(store.rows[pk]).Some? && HumanApproved(store.rows, Class(store.rows[pk]).value)
      modifies store, audit
      ensures Valid() && Kept(old(store.rows), store.rows)
      ensures r.Ok? <==> pk in old(store.rows) && old(store.rows)[pk].status == Pending
      ensures r.Err? ==> store.rows == old(store.rows) && audit.log == old(audit.log)
      ensures r.Err? ==> r.error == if pk in old(store.rows) then AlreadyDecided else NotFound
      ensures r.Ok? ==>
                && store.rows == old(store.rows)[
                     pk := Decided(old(store.rows)[pk], status, ResultWithMeta(payload, mode, reason), at)]
                && audit.log == old(audit.log) + [DecisionEntry(pk, old(store.rows)[pk], status, mode, reason)]
                && r.value == store.rows[pk]
    {
      ghost var rows := store.rows;
      r := store.UpdateDecision(pk, status, ResultWithMeta(payload, mode, reason), at);
      if r.Ok? {
        DecideStep(rows, audit.log, pk, status, ResultWithMeta(payload, mode, reason), at, mode, reason);
        var existing := store.rows[pk];
        audit.log := audit.log + [DecisionEntry(pk, existing, status, mode, reason)];
      }
    }

    /** The proposal offers to be remembered, and a person has approved its similarity class. */
    ghost predicate ApprovedBefore(p: Proposal, rows: map<string, Gate>) {
      && ApproveAndRemember in p.modes
      && KeyOf(p).Some?
      && HumanApproved(rows, (p.routineId, p.gateId, KeyOf(p).value))
    }

    /** `propose_for_review`: approved at once exactly when `ApprovedBefore` holds. */
    method ProposeForReview(p: Proposal, pk: string, now: int, decidedAt: int) returns (g: Gate)
      requires Valid() && pk !in store.rows
      modifies store, audit
      ensures Valid() && Kept(old(store.rows), store.rows)
      ensures Now() == ProposeOne(old(Now()), pk, NewGate(p, KeyOf(p), now), ApproveAndRemember in p.modes,
                                  ResultWithMeta(Some(p.payload), Some(ApproveAndRemember), None), decidedAt)
      ensures store.rows == old(store.rows)[pk := g]
      ensures !ApprovedBefore(p, old(store.rows)) ==>
                && g == NewGate(p, KeyOf(p), now)
                && audit.log == old(audit.log) + [ProposedEntry(pk, NewGate(p, KeyOf(p), now))]
      ensures ApprovedBefore(p, old(store.rows)) ==>
                && g == Decided(NewGate(p, KeyOf(p), now), AutoApproved,
                                ResultWithMeta(Some(p.payload), Some(ApproveAndRemember), None), decidedAt)
                && audit.log == old(audit.log)
                     + [ProposedEntry(pk, NewGate(p, KeyOf(p), now))]
                     + [DecisionEntry(pk, NewGate(p, KeyOf(p), now), AutoApproved, Some(ApproveAndRemember), None)]
      ensures old(audit.log) + [Entry(GateProposed, pk, p.gateId, p.runId, None, None, None)] <= audit.log
      ensures ApprovedBefore(p, old(store.rows)) ==>
                && |audit.log| == |old(audit.log)| + 2
                && audit.log[|old(audit.log)| + 1]
                   == Entry(GateAutoApprovedBySimilarity, pk, p.gateId, p.runId, Some(AutoApproved),
                            Some(ApproveAndRemember), None)
      ensures g.similarityKey == if p.similarityKey.Some? then p.similarityKey
                                 else if p.gateId in similarity then Some(similarity[p.gateId](p.payload)) else None
    {
      var key := KeyOf(p);
      g := NewGate(p, key, now);
      ProposeStep(store.rows, audit.log, pk, g);
      store.rows := store.rows[pk := g];
      audit.log := audit.log + [ProposedEntry(pk, g)];
      if ApproveAndRemember in p.modes && key.Some? {
        var c := (p.routineId, p.gateId, key.value);
        RememberedMeansHuman(store.rows, audit.log, c);
        PendingApprovesNothing(old(store.rows), pk, g, c);
        var remembered := store.HasRememberedApproval(c);
        if remembered {
          var r := RecordDecision(pk, AutoApproved, Some(p.payload), Some(ApproveAndRemember), None, decidedAt);
          Overwrite(old(store.rows), pk, g, r.value);
          g := r.value;
        }
      }
    }

    /** `decide`, by a person. */
    method Decide(pk: string, status: Status, payload: Option<Json>, reason: Option<string>, mode: Option<Mode>,
                  at: int)
      returns (r: Result<Gate, GateError>)
      requires Valid()
      modifies store, audit
      ensures Valid() && Kept(old(store.rows), store.rows)
      ensures Now() == Apply(old(Now()),
                             Step.Decide(pk, status, ResultWithMeta(payload, mode, reason), at, mode, reason))
      ensures r == Err(BadStatus) <==> status != Approved && status != Rejected && status != ModifiedAndApproved
      ensures r.Ok? <==> r != Err(BadStatus) && pk in old(store.rows) && old(store.rows)[pk].status == Pending
      ensures r.Err? ==> store.rows == old(store.rows) && audit.log == old(audit.log)
      ensures r.Ok? ==>
                && store.rows == old(store.rows)[
                     pk := Decided(old(store.rows)[pk], status, ResultWithMeta(payload, mode, reason), at)]
                && audit.log == old(audit.log) + [DecisionEntry(pk, old(store.rows)[pk], status, mode, reason)]
                && r.value == store.rows[pk]
      ensures r.Ok? ==>
                && store.rows[pk].status == status && store.rows[pk].decidedAt == Some(at)
                && store.rows[pk].result == ResultWithMeta(payload, mode, reason)
                && audit.log == old(audit.log)
                     + [Entry(if status == Approved then GateApproved
                              else if status == Rejected then GateRejected else GateModifiedAndApproved,
                              pk, store.rows[pk].gateId, store.rows[pk].runId, Some(status), mode, reason)]
    {
      if status != Approved && status != Rejected && status != ModifiedAndApproved {
        return Err(BadStatus);
      }
      r := RecordDecision(pk, status, payload, mode, reason, at);
    }

    /** `expire_due`: afterwards nothing pending is due, exactly the returned gates changed,
        and no decision was refused. */
    method ExpireDue(now: int, clock: nat -> int) returns (expired: seq<string>)
      requires Valid()
      modifies store, audit
      ensures Valid() && Kept(old(store.rows), store.rows)
      ensures forall pk :: pk in expired <==> pk in old(store.rows) && Due(old(store.rows)[pk], now)
      ensures ExpiredSome(old(store.rows), store.rows, expired)
      ensures NoRepeats(expired) && InCreationOrder(old(store.rows), expired)
      ensures forall pk :: pk in store.rows ==> !Due(store.rows[pk], now)
      ensures audit.log == old(audit.log) + ExpiryEntries(old(store.rows), expired)
      ensures exists pending :: Now() == Apply(old(Now()), Step.Expire(now, pending, clock))
      ensures ExpiriesFrom(audit.log, |old(audit.log)|, expired)
    {
      expired := [];
      var pending := store.ListPending();
      ghost var start := Now();
      for i := 0 to |pending|
        invariant Valid() && Now() == ExpireAll(start, pending[..i], now, clock)
        invariant expired == DueAmong(start.rows, pending[..i], now)
      {
        ListedRound(start, pending, i, now, clock);
        var pk := pending[i];
        if store.rows[pk].expiresAt.Some? && store.rows[pk].expiresAt.value <= now {
          var r := RecordDecision(pk, Expired, None, None, None, clock(i));
          expired := expired + [pk];
        }
      }
      assert pending[..|pending|] == pending;
      assert Now() == Apply(start, Step.Expire(now, pending, clock));
      ExpireAllExpires(start, pending, now, clock);
      ExpireKeeps(start, pending, now, clock);
      DueInOrder(start.rows, pending, now);
      NothingLeftDue(start.rows, store.rows, pending, now);
      ExpiriesAppended(start.log, start.rows, expired);
    }
  }

  /** The gate of a round is as it was listed, and what the round does to it. */
  lemma ListedRound(start: Record, pending: seq<string>, i: nat, now: int, clock: nat -> int)
    requires NoRepeats(pending) && i < |pending|
    requires forall pk :: pk in pending ==> pk in start.rows && start.rows[pk].status == Pending
    ensures var s, pk := ExpireAll(start, pending[..i], now, clock), pending[i];
            && pk in s.rows && s.rows[pk] == start.rows[pk] && pk in pending && s.rows[pk].status == Pending
            && ExpireAll(start, pending[..i + 1], now, clock) == ExpireOne(s, pk, now, clock(i))
            && DueAmong(start.rows, pending[..i + 1], now)
               == DueAmong(start.rows, pending[..i], now) + if Due(start.rows[pk], now) then [pk] else []
  {
    assert pending[i] in pending && pending[i] !in pending[..i];
    assert pending[..i + 1][..i] == pending[..i];
    ExpireAllExpires(start, pending[..i], now, clock);
    DueStep(start.rows, pending, now, i);
  }
}
