/** Gate rows against the audit trail (ota_core/policy/gates.py): what every run keeps, and
    where automatic approvals come from. */
module GateTrail {
  import opened Outcomes

  /** A JSON object with text values. */
  type Json = map<string, string>

  datatype Status = Pending | Approved | Rejected | ModifiedAndApproved | AutoApproved | Expired

  datatype Mode = Approve | TuneAndApprove | ApproveAndRemember

  datatype Gate = Gate(
    routineId: string,
    runId: string,
    gateId: string,
    status: Status,
    proposal: Json,
    result: Option<Json>,
    similarityKey: Option<string>,
    approvalMode: Option<Mode>,
    expiresAt: Option<int>,
    createdAt: int,
    decidedAt: Option<int>)

  datatype EventType =
    | GateProposed | GateApproved | GateRejected | GateModifiedAndApproved | GateAutoApprovedBySimilarity | GateExpired

  datatype Entry = Entry(
    eventType: EventType,
    pk: string,
    gateId: string,
    runId: string,
    status: Option<Status>,
    mode: Option<Mode>,
    reason: Option<string>)

  function DecisionType(s: Status): EventType
    requires s != Pending
  {
    match s
    case Approved => GateApproved
    case Rejected => GateRejected
    case ModifiedAndApproved => GateModifiedAndApproved
    case AutoApproved => GateAutoApprovedBySimilarity
    case Expired => GateExpired
  }

  /** The similarity class of a gate: routine, gate and key. */
  function Class(g: Gate): Option<(string, string, string)> {
    if g.similarityKey.None? then None else Some((g.routineId, g.gateId, g.similarityKey.value))
  }

  /** Two gates share a class exactly if both have a key and agree in routine, gate and key. */
  lemma ClassMeans(g: Gate, g': Gate)
    ensures Class(g).Some? <==> g.similarityKey.Some?
    ensures Class(g).Some? && Class(g) == Class(g')
            <==> && g.similarityKey.Some? && g.similarityKey == g'.similarityKey
                 && g.routineId == g'.routineId && g.gateId == g'.gateId
  {
  }

  // ---------- One gate's entries ----------

  /** The entries of one gate, in order. */
  ghost function History(log: seq<Entry>, pk: string): seq<Entry> {
    if log == [] then []
    else History(log[..|log| - 1], pk) + if log[|log| - 1].pk == pk then [log[|log| - 1]] else []
  }

  lemma HistoryStep(log: seq<Entry>, e: Entry, pk: string)
    ensures History(log + [e], pk) == History(log, pk) + if e.pk == pk then [e] else []
  {
    assert (log + [e])[..|log|] == log;
  }

  /** A gate has one proposal entry, then one decision entry that says its status unless it
      is pending; a gate that does not exist has no entry. */
  ghost predicate RowAgrees(rows: map<string, Gate>, pk: string, h: seq<Entry>) {
    if pk !in rows then h == []
    else
      var g := rows[pk];
      && |h| == (if g.status == Pending then 1 else 2)
      && h[0].eventType == GateProposed && h[0].gateId == g.gateId && h[0].runId == g.runId
      && g.approvalMode == None
      && (g.status == Pending ==> g.decidedAt == None && g.result == None)
      && (g.status != Pending ==>
            && g.decidedAt.Some?
            && h[1].eventType == DecisionType(g.status) && h[1].status == Some(g.status)
            && h[1].gateId == g.gateId && h[1].runId == g.runId)
  }

  ghost predicate TrailAgrees(rows: map<string, Gate>, log: seq<Entry>) {
    forall pk :: RowAgrees(rows, pk, History(log, pk))
  }

  // ---------- Provenance ----------

  predicate IsHuman(t: EventType) {
    t == GateApproved || t == GateModifiedAndApproved
  }

  /** The entry at `i` approved, by a person, a gate of the given class. */
  ghost predicate HumanApproval(rows: map<string, Gate>, log: seq<Entry>, i: int, c: (string, string, string)) {
    0 <= i < |log| && IsHuman(log[i].eventType) && log[i].pk in rows && Class(rows[log[i].pk]) == Some(c)
  }

  /** Every automatic approval has an earlier approval by a person in the same class. */
  ghost predicate Justified(rows: map<string, Gate>, log: seq<Entry>) {
    forall i :: 0 <= i < |log| && log[i].eventType == GateAutoApprovedBySimilarity ==>
                  && log[i].pk in rows
                  && Class(rows[log[i].pk]).Some?
                  && exists j :: j < i && HumanApproval(rows, log, j, Class(rows[log[i].pk]).value)
  }

  ghost predicate Consistent(rows: map<string, Gate>, log: seq<Entry>) {
    TrailAgrees(rows, log) && Justified(rows, log)
  }

  /** What `has_remembered_approval` asks of the table. */
  ghost predicate Remembered(rows: map<string, Gate>, c: (string, string, string)) {
    exists pk :: pk in rows && Class(rows[pk]) == Some(c)
                 && (rows[pk].status == Approved || rows[pk].status == ModifiedAndApproved
                     || rows[pk].status == AutoApproved)
  }

  /** Some person has approved a gate of the class. */
  ghost predicate HumanApproved(rows: map<string, Gate>, c: (string, string, string)) {
    exists pk :: pk in rows && Class(rows[pk]) == Some(c)
                 && (rows[pk].status == Approved || rows[pk].status == ModifiedAndApproved)
  }

  lemma {:induction false} EntryOf(log: seq<Entry>, pk: string, k: nat) returns (i: nat)
    requires k < |History(log, pk)|
    ensures i < |log| && log[i] == History(log, pk)[k] && log[i].pk == pk
  {
    var init := log[..|log| - 1];
    if k < |History(init, pk)| {
      i := EntryOf(init, pk, k);
    } else {
      i := |log| - 1;
    }
  }

  lemma {:induction false} InHistory(log: seq<Entry>, i: nat)
    requires i < |log|
    ensures log[i] in History(log, log[i].pk)
  {
    if i < |log| - 1 {
      InHistory(log[..|log| - 1], i);
    }
  }

  /** The entry of a human approval belongs to a row that shows it. */
  lemma HumanEntryRow(rows: map<string, Gate>, log: seq<Entry>, i: int, c: (string, string, string))
    requires TrailAgrees(rows, log) && HumanApproval(rows, log, i, c)
    ensures HumanApproved(rows, c)
  {
    var pk := log[i].pk;
    InHistory(log, i);
    assert RowAgrees(rows, pk, History(log, pk));
    assert rows[pk].status == Approved || rows[pk].status == ModifiedAndApproved;
  }

  /** The similarity query, which also accepts automatic approvals and ignores the approval
      mode, holds exactly when a person has approved a gate of the class. */
  lemma RememberedMeansHuman(rows: map<string, Gate>, log: seq<Entry>, c: (string, string, string))
    requires Consistent(rows, log)
    ensures Remembered(rows, c) <==> HumanApproved(rows, c)
  {
    if Remembered(rows, c) {
      var pk :| pk in rows && Class(rows[pk]) == Some(c)
                && (rows[pk].status == Approved || rows[pk].status == ModifiedAndApproved
                    || rows[pk].status == AutoApproved);
      if rows[pk].status == AutoApproved {
        assert RowAgrees(rows, pk, History(log, pk));
        var i := EntryOf(log, pk, 1);
        var j :| j < i && HumanApproval(rows, log, j, c);
        HumanEntryRow(rows, log, j, c);
      }
    }
  }

  /** The origin of an automatic approval, as an entry of the trail. */
  lemma AutoApprovalHasOrigin(rows: map<string, Gate>, log: seq<Entry>, pk: string) returns (j: nat, i: nat)
    requires Consistent(rows, log) && pk in rows && rows[pk].status == AutoApproved
    ensures j < i < |log| && log[i].pk == pk && log[i].eventType == GateAutoApprovedBySimilarity
    ensures Class(rows[pk]).Some? && HumanApproval(rows, log, j, Class(rows[pk]).value)
  {
    assert RowAgrees(rows, pk, History(log, pk));
    i := EntryOf(log, pk, 1);
    j :| j < i && HumanApproval(rows, log, j, Class(rows[pk]).value);
  }

  lemma HumanRowEntry(rows: map<string, Gate>, log: seq<Entry>, c: (string, string, string)) returns (i: nat)
    requires TrailAgrees(rows, log) && HumanApproved(rows, c)
    ensures HumanApproval(rows, log, i, c)
  {
    var pk :| pk in rows && Class(rows[pk]) == Some(c)
              && (rows[pk].status == Approved || rows[pk].status == ModifiedAndApproved);
    assert RowAgrees(rows, pk, History(log, pk));
    i := EntryOf(log, pk, 1);
  }

  // ---------- Steps ----------

  /** Rows with a decision never change, and no row disappears or changes its class. */
  ghost predicate Kept(before: map<string, Gate>, after: map<string, Gate>) {
    forall pk :: pk in before ==>
                   && pk in after
                   && (before[pk].status != Pending ==> after[pk] == before[pk])
                   && Class(after[pk]) == Class(before[pk])
                   && after[pk].createdAt == before[pk].createdAt && after[pk].expiresAt == before[pk].expiresAt
  }

  lemma KeptTransitive(a: map<string, Gate>, b: map<string, Gate>, c: map<string, Gate>)
    requires Kept(a, b) && Kept(b, c)
    ensures Kept(a, c)
  {
  }

  function ProposedEntry(pk: string, g: Gate): Entry {
    Entry(GateProposed, pk, g.gateId, g.runId, None, None, None)
  }

  function Decided(g: Gate, status: Status, result: Option<Json>, at: int): Gate {
    g.(status := status, result := result, decidedAt := Some(at))
  }

  /** A decision sets status, result and time, and nothing else of a gate. */
  lemma DecidedMeans(g: Gate, status: Status, result: Option<Json>, at: int)
    ensures var d := Decided(g, status, result, at);
            && d.status == status && d.result == result && d.decidedAt == Some(at)
            && d == Gate(g.routineId, g.runId, g.gateId, status, g.proposal, result, g.similarityKey, g.approvalMode,
                         g.expiresAt, g.createdAt, Some(at))
  {
  }

  function DecisionEntry(pk: string, g: Gate, status: Status, mode: Option<Mode>, reason: Option<string>): Entry
    requires status != Pending
  {
    Entry(DecisionType(status), pk, g.gateId, g.runId, Some(status), mode, reason)
  }

  lemma JustifiedStep(rows: map<string, Gate>, rows': map<string, Gate>, log: seq<Entry>, e: Entry)
    requires Justified(rows, log) && Kept(rows, rows')
    requires e.eventType == GateAutoApprovedBySimilarity ==>
               && e.pk in rows' && Class(rows'[e.pk]).Some?
               && exists j :: HumanApproval(rows, log, j, Class(rows'[e.pk]).value)
    ensures Justified(rows', log + [e])
  {
    var more := log + [e];
    forall i | 0 <= i < |more| && more[i].eventType == GateAutoApprovedBySimilarity
      ensures more[i].pk in rows' && Class(rows'[more[i].pk]).Some?
              && exists j :: j < i && HumanApproval(rows', more, j, Class(rows'[more[i].pk]).value)
    {
      var j: int;
      if i < |log| {
        j :| j < i && HumanApproval(rows, log, j, Class(rows[log[i].pk]).value);
      } else {
        j :| HumanApproval(rows, log, j, Class(rows'[e.pk]).value);
      }
      assert more[j] == log[j];
      assert HumanApproval(rows', more, j, Class(rows'[more[i].pk]).value);
    }
  }

  predicate Fresh(g: Gate) {
    g.status == Pending && g.approvalMode == None && g.result == None && g.decidedAt == None
  }

  lemma ProposeStep(rows: map<string, Gate>, log: seq<Entry>, pk: string, g: Gate)
    requires Consistent(rows, log) && pk !in rows && Fresh(g)
    ensures Consistent(rows[pk := g], log + [ProposedEntry(pk, g)])
    ensures Kept(rows, rows[pk := g])
  {
    var e := ProposedEntry(pk, g);
    forall q ensures RowAgrees(rows[pk := g], q, History(log + [e], q)) {
      HistoryStep(log, e, q);
      assert RowAgrees(rows, q, History(log, q));
    }
    JustifiedStep(rows, rows[pk := g], log, e);
  }

  lemma DecideStep(rows: map<string, Gate>, log: seq<Entry>, pk: string, status: Status,
                   result: Option<Json>, at: int, mode: Option<Mode>, reason: Option<string>)
    requires Consistent(rows, log) && pk in rows && rows[pk].status == Pending && status != Pending
    requires status == AutoApproved ==> Class(rows[pk]).Some? && HumanApproved(rows, Class(rows[pk]).value)
    ensures var rows' := rows[pk := Decided(rows[pk], status, result, at)];
            Consistent(rows', log + [DecisionEntry(pk, rows[pk], status, mode, reason)]) && Kept(rows, rows')
  {
    var rows' := rows[pk := Decided(rows[pk], status, result, at)];
    var e := DecisionEntry(pk, rows[pk], status, mode, reason);
    forall q ensures RowAgrees(rows', q, History(log + [e], q)) {
      HistoryStep(log, e, q);
      assert RowAgrees(rows, q, History(log, q));
    }
    if status == AutoApproved {
      var i := HumanRowEntry(rows, log, Class(rows[pk]).value);
    }
    JustifiedStep(rows, rows', log, e);
  }

  /** A decision makes a similarity class remembered exactly when it approves a gate of the
      class, with whatever approval mode: also a plain one-off approval is remembered. */
  lemma DecisionRemembers(rows: map<string, Gate>, pk: string, status: Status, result: Option<Json>, at: int,
                          c: (string, string, string))
    requires pk in rows && rows[pk].status == Pending
    ensures HumanApproved(rows[pk := Decided(rows[pk], status, result, at)], c)
            <==> HumanApproved(rows, c)
                 || ((status == Approved || status == ModifiedAndApproved) && Class(rows[pk]) == Some(c))
  {
    var rows' := rows[pk := Decided(rows[pk], status, result, at)];
    if HumanApproved(rows, c) {
      var q :| q in rows && Class(rows[q]) == Some(c)
               && (rows[q].status == Approved || rows[q].status == ModifiedAndApproved);
      assert rows'[q] == rows[q];
    } else if (status == Approved || status == ModifiedAndApproved) && Class(rows[pk]) == Some(c) {
      assert Class(rows'[pk]) == Some(c);
    }
  }
}
