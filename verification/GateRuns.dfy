/** Runs of proposals, decisions and expiries (ota_core/policy/gates.py): what every run
    keeps, and which proposals are approved at once. */
module GateRuns {
  import opened Outcomes
  import opened GateTrail
  import opened GateBatches
  import opened Sorting

  /** The table and the trail. */
  datatype Record = Record(rows: map<string, Gate>, log: seq<Entry>)

  datatype Step =
    | Propose(pk: string, gate: Gate, offers: bool, result: Option<Json>, decidedAt: int)
    | Decide(pk: string, status: Status, result: Option<Json>, at: int, mode: Option<Mode>, reason: Option<string>)
    | Expire(now: int, pending: seq<string>, clock: nat -> int)   // the pending gates in listing order

  // ---------- The steps ----------

  predicate Open(r: Record, pk: string) {
    pk in r.rows && r.rows[pk].status == Pending
  }

  function DecideOne(r: Record, pk: string, status: Status, result: Option<Json>, at: int, mode: Option<Mode>,
                     reason: Option<string>): Record
    requires Open(r, pk) && status != Pending
  {
    Record(r.rows[pk := Decided(r.rows[pk], status, result, at)],
           r.log + [DecisionEntry(pk, r.rows[pk], status, mode, reason)])
  }

  function Proposed(r: Record, pk: string, g: Gate): Record {
    Record(r.rows[pk := g], r.log + [ProposedEntry(pk, g)])
  }

  /** An identifier in use, or a gate that is not fresh, is never inserted. */
  ghost function ProposeOne(r: Record, pk: string, g: Gate, offers: bool, result: Option<Json>, at: int): Record {
    if pk in r.rows || !Fresh(g) then r
    else
      var s := Proposed(r, pk, g);
      if offers && Class(g).Some? && Remembered(s.rows, Class(g).value)
      then DecideOne(s, pk, AutoApproved, result, at, Some(ApproveAndRemember), None)
      else s
  }

  predicate ByPerson(status: Status) {
    status == Approved || status == Rejected || status == ModifiedAndApproved
  }

  function ExpireOne(r: Record, pk: string, now: int, at: int): Record {
    if pk in r.rows && Due(r.rows[pk], now) then DecideOne(r, pk, Expired, None, at, None, None) else r
  }

  ghost function ExpireAll(r: Record, pending: seq<string>, now: int, clock: nat -> int): Record {
    if pending == [] then r
    else
      var n := |pending| - 1;
      ExpireOne(ExpireAll(r, pending[..n], now, clock), pending[n], now, clock(n))
  }

  /** `s` is what expiring the gates in `due` leaves of `r`. */
  ghost predicate Expires(r: Record, s: Record, due: seq<string>) {
    ExpiredSome(r.rows, s.rows, due) && s.log == r.log + ExpiryEntries(r.rows, due)
  }

  lemma ExpireOneExpires(r: Record, s: Record, due: seq<string>, pk: string, now: int, at: int)
    requires Expires(r, s, due) && pk in r.rows && pk !in due
    ensures Expires(r, ExpireOne(s, pk, now, at), due + if Due(r.rows[pk], now) then [pk] else [])
  {
    if Due(r.rows[pk], now) {
      OneMoreExpired(r.rows, s.rows, due, pk, at);
      ExpiryStep(r.rows, due, pk);
      assert s.rows[pk] == r.rows[pk];
    } else {
      assert due + [] == due;
    }
  }

  /** Expiring a list of gates changes exactly the due ones among them. */
  lemma {:induction false} ExpireAllExpires(r: Record, pks: seq<string>, now: int, clock: nat -> int)
    requires NoRepeats(pks) && forall pk :: pk in pks ==> pk in r.rows
    ensures Expires(r, ExpireAll(r, pks, now, clock), DueAmong(r.rows, pks, now))
  {
    if pks == [] {
      assert r.log + [] == r.log;
    } else {
      var n := |pks| - 1;
      ExpireAllExpires(r, pks[..n], now, clock);
      assert pks[n] !in pks[..n] && pks[n] in pks;
      ExpireOneExpires(r, ExpireAll(r, pks[..n], now, clock), DueAmong(r.rows, pks[..n], now), pks[n], now, clock(n));
    }
  }

  ghost function Apply(r: Record, step: Step): Record {
    match step
    case Propose(pk, g, offers, result, at) => ProposeOne(r, pk, g, offers, result, at)
    case Decide(pk, status, result, at, mode, reason) =>
      if ByPerson(status) && Open(r, pk) then DecideOne(r, pk, status, result, at, mode, reason) else r
    case Expire(now, pending, clock) => ExpireAll(r, pending, now, clock)
  }

  const NOTHING := Record(map[], [])

  ghost function Run(steps: seq<Step>): Record {
    if steps == [] then NOTHING else Apply(Run(steps[..|steps| - 1]), steps[|steps| - 1])
  }

  // ---------- What every step keeps ----------

  ghost predicate Sound(r: Record) {
    Consistent(r.rows, r.log)
  }

  /** `s` may come after `r`: no row is lost or re-decided, no entry is lost. */
  ghost predicate Follows(r: Record, s: Record) {
    Kept(r.rows, s.rows) && r.log <= s.log
  }

  lemma FollowsOn(r: Record, s: Record, t: Record)
    requires Follows(r, s) && Follows(s, t)
    ensures Follows(r, t)
  {
    KeptTransitive(r.rows, s.rows, t.rows);
  }

  lemma DecideKeeps(r: Record, pk: string, status: Status, result: Option<Json>, at: int, mode: Option<Mode>,
                    reason: Option<string>)
    requires Sound(r) && Open(r, pk) && status != Pending
    requires status == AutoApproved ==> Class(r.rows[pk]).Some? && HumanApproved(r.rows, Class(r.rows[pk]).value)
    ensures Sound(DecideOne(r, pk, status, result, at, mode, reason))
    ensures Follows(r, DecideOne(r, pk, status, result, at, mode, reason))
  {
    DecideStep(r.rows, r.log, pk, status, result, at, mode, reason);
  }

  lemma ProposeKeeps(r: Record, pk: string, g: Gate, offers: bool, result: Option<Json>, at: int)
    requires Sound(r)
    ensures Sound(ProposeOne(r, pk, g, offers, result, at)) && Follows(r, ProposeOne(r, pk, g, offers, result, at))
  {
    if pk !in r.rows && Fresh(g) {
      var s := Proposed(r, pk, g);
      ProposeStep(r.rows, r.log, pk, g);
      if offers && Class(g).Some? && Remembered(s.rows, Class(g).value) {
        RememberedMeansHuman(s.rows, s.log, Class(g).value);
        DecideKeeps(s, pk, AutoApproved, result, at, Some(ApproveAndRemember), None);
        FollowsOn(r, s, ProposeOne(r, pk, g, offers, result, at));
      }
    }
  }

  lemma {:induction false} ExpireKeeps(r: Record, pending: seq<string>, now: int, clock: nat -> int)
    requires Sound(r)
    ensures Sound(ExpireAll(r, pending, now, clock)) && Follows(r, ExpireAll(r, pending, now, clock))
  {
    if pending != [] {
      var n := |pending| - 1;
      var s := ExpireAll(r, pending[..n], now, clock);
      ExpireKeeps(r, pending[..n], now, clock);
      if pending[n] in s.rows && Due(s.rows[pending[n]], now) {
        DecideKeeps(s, pending[n], Expired, None, clock(n), None, None);
        FollowsOn(r, s, ExpireAll(r, pending, now, clock));
      }
    }
  }

  lemma ApplyKeeps(r: Record, step: Step)
    requires Sound(r)
    ensures Sound(Apply(r, step)) && Follows(r, Apply(r, step))
  {
    match step
    case Propose(pk, g, offers, result, at) => ProposeKeeps(r, pk, g, offers, result, at);
    case Decide(pk, status, result, at, mode, reason) =>
      if ByPerson(status) && Open(r, pk) {
        DecideKeeps(r, pk, status, result, at, mode, reason);
      }
    case Expire(now, pending, clock) => ExpireKeeps(r, pending, now, clock);
  }

  // ---------- Runs ----------

  /** In every run each gate has one proposed entry and a decision entry if and only if it is
      decided, and every automatic approval has its origin. */
  lemma {:induction false} RunIsSound(steps: seq<Step>)
    ensures Sound(Run(steps))
  {
    if steps != [] {
      RunIsSound(steps[..|steps| - 1]);
      ApplyKeeps(Run(steps[..|steps| - 1]), steps[|steps| - 1]);
    }
  }

  /** Over any run decided rows never change, no gate disappears and the trail only grows. */
  lemma {:induction false} RunKeeps(steps: seq<Step>, n: nat)
    requires n <= |steps|
    ensures Follows(Run(steps[..n]), Run(steps))
    decreases |steps|
  {
    if n == |steps| {
      assert steps[..n] == steps;
    } else {
      var init := steps[..|steps| - 1];
      assert init[..n] == steps[..n];
      RunKeeps(init, n);
      RunIsSound(init);
      ApplyKeeps(Run(init), steps[|steps| - 1]);
      FollowsOn(Run(steps[..n]), Run(init), Run(steps));
    }
  }

  // ---------- Who has approved ----------

  lemma ApprovalStays(a: map<string, Gate>, b: map<string, Gate>, c: (string, string, string))
    requires HumanApproved(a, c) && Kept(a, b)
    ensures HumanApproved(b, c)
  {
    var pk :| pk in a && Class(a[pk]) == Some(c) && (a[pk].status == Approved || a[pk].status == ModifiedAndApproved);
    assert b[pk] == a[pk];
  }

  /** A step by which a person approves a gate of the class. */
  ghost predicate Approves(r: Record, step: Step, c: (string, string, string)) {
    && step.Decide? && (step.status == Approved || step.status == ModifiedAndApproved)
    && Open(r, step.pk) && Class(r.rows[step.pk]) == Some(c)
  }

  lemma ProposeApprovesNone(r: Record, pk: string, g: Gate, offers: bool, result: Option<Json>, at: int,
                            c: (string, string, string))
    requires Sound(r)
    ensures HumanApproved(ProposeOne(r, pk, g, offers, result, at).rows, c) <==> HumanApproved(r.rows, c)
  {
    if pk !in r.rows && Fresh(g) {
      PendingApprovesNothing(r.rows, pk, g, c);
      DecisionRemembers(Proposed(r, pk, g).rows, pk, AutoApproved, result, at, c);
    }
  }

  lemma {:induction false} ExpireApprovesNone(r: Record, pending: seq<string>, now: int, clock: nat -> int,
                                              c: (string, string, string))
    ensures HumanApproved(ExpireAll(r, pending, now, clock).rows, c) <==> HumanApproved(r.rows, c)
  {
    if pending != [] {
      var n := |pending| - 1;
      var s := ExpireAll(r, pending[..n], now, clock);
      ExpireApprovesNone(r, pending[..n], now, clock, c);
      if pending[n] in s.rows && Due(s.rows[pending[n]], now) {
        DecisionRemembers(s.rows, pending[n], Expired, None, clock(n), c);
      }
    }
  }

  lemma StepApproves(r: Record, step: Step, c: (string, string, string))
    requires Sound(r)
    ensures HumanApproved(Apply(r, step).rows, c) <==> HumanApproved(r.rows, c) || Approves(r, step, c)
  {
    match step
    case Propose(pk, g, offers, result, at) => ProposeApprovesNone(r, pk, g, offers, result, at, c);
    case Decide(pk, status, result, at, mode, reason) =>
      if ByPerson(status) && Open(r, pk) {
        DecisionRemembers(r.rows, pk, status, result, at, c);
      }
    case Expire(now, pending, clock) => ExpireApprovesNone(r, pending, now, clock, c);
  }

  ghost predicate ApprovedAt(steps: seq<Step>, i: int, c: (string, string, string)) {
    0 <= i < |steps| && Approves(Run(steps[..i]), steps[i], c)
  }

  lemma {:induction false} ApprovedByStep(steps: seq<Step>, c: (string, string, string))
    ensures HumanApproved(Run(steps).rows, c) <==> exists i :: ApprovedAt(steps, i, c)
  {
    if steps != [] {
      var n := |steps| - 1;
      var init := steps[..n];
      ApprovedByStep(init, c);
      RunIsSound(init);
      StepApproves(Run(init), steps[n], c);
      forall i | 0 <= i < n ensures ApprovedAt(steps, i, c) <==> ApprovedAt(init, i, c) {
        assert init[..i] == steps[..i];
      }
      assert ApprovedAt(steps, n, c) <==> Approves(Run(init), steps[n], c);
      if i :| ApprovedAt(init, i, c) {
        assert ApprovedAt(steps, i, c);
      }
      if i :| ApprovedAt(steps, i, c) {
        assert i < n ==> ApprovedAt(init, i, c);
      }
    }
  }

  /** A class once approved by a person stays approved. */
  lemma ApprovedForGood(steps: seq<Step>, n: nat, c: (string, string, string))
    requires n <= |steps| && HumanApproved(Run(steps[..n]).rows, c)
    ensures HumanApproved(Run(steps).rows, c)
  {
    RunKeeps(steps, n);
    ApprovalStays(Run(steps[..n]).rows, Run(steps).rows, c);
  }

  /** After any run a new proposal is approved at once if and only if it offers to be
      remembered, has a similarity class, and a person approved a gate of that class at
      some earlier step, whatever has happened since. */
  lemma ApprovedAtOnce(steps: seq<Step>, pk: string, g: Gate, offers: bool, result: Option<Json>, at: int)
    requires pk !in Run(steps).rows && Fresh(g)
    ensures var rows := Run(steps + [Propose(pk, g, offers, result, at)]).rows;
            && pk in rows
            && (rows[pk].status == AutoApproved
                <==> offers && Class(g).Some? && exists i :: ApprovedAt(steps, i, Class(g).value))
  {
    var r, step := Run(steps), Propose(pk, g, offers, result, at);
    assert (steps + [step])[..|steps|] == steps;
    RunIsSound(steps);
    if Class(g).Some? {
      var c := Class(g).value;
      ApprovedByStep(steps, c);
      ProposeStep(r.rows, r.log, pk, g);
      PendingApprovesNothing(r.rows, pk, g, c);
      RememberedMeansHuman(Proposed(r, pk, g).rows, Proposed(r, pk, g).log, c);
    }
  }
}
