/** What the trust row of an email template must say, as a statement about the template's
    whole feedback history (ota_routines/email_triage/state.py, helpers.py). */
module TrustHistory {
  import opened Outcomes

  datatype Feedback =
    | OptIn(template: string, enabled: bool)
    | Approval(template: string)
    | Edit(template: string, emailId: string, kind: string, at: int)

  datatype Row = Row(streak: nat, total: nat, autoSend: bool, optedIn: bool, demotedAt: Option<int>)

  /** The feedback on one template. */
  ghost function Of(h: seq<Feedback>, template: string): seq<Feedback> {
    if h == [] then []
    else Of(h[..|h| - 1], template) + if h[|h| - 1].template == template then [h[|h| - 1]] else []
  }

  lemma OfStep(h: seq<Feedback>, f: Feedback, template: string)
    ensures Of(h + [f], template) == Of(h, template) + if f.template == template then [f] else []
  {
    assert (h + [f])[..|h|] == h;
  }

  // ---------- The columns ----------

  /** The position after the last edit. */
  ghost function LastEditEnd(h: seq<Feedback>): (k: nat)
    ensures k <= |h|
    ensures k > 0 ==> h[k - 1].Edit?
    ensures forall i :: k <= i < |h| ==> !h[i].Edit?
  {
    if h == [] then 0
    else if h[|h| - 1].Edit? then |h|
    else LastEditEnd(h[..|h| - 1])
  }

  ghost function Approvals(h: seq<Feedback>): nat {
    if h == [] then 0 else Approvals(h[..|h| - 1]) + if h[|h| - 1].Approval? then 1 else 0
  }

  /** Consecutive unedited approvals: those after the last edit. */
  ghost function Streak(h: seq<Feedback>): nat {
    Approvals(h[LastEditEnd(h)..])
  }

  /** The setting of the latest opt-in or opt-out. */
  ghost function OptedIn(h: seq<Feedback>): bool {
    if h == [] then false
    else if h[|h| - 1].OptIn? then h[|h| - 1].enabled
    else OptedIn(h[..|h| - 1])
  }

  /** The approval at `i` met the threshold while the template was opted in. */
  ghost predicate Promotes(h: seq<Feedback>, i: int, threshold: int) {
    0 <= i < |h| && h[i].Approval? && OptedIn(h[..i]) && Streak(h[..i + 1]) >= threshold
  }

  /** Some approval since the last edit promoted the template. */
  ghost predicate Promoted(h: seq<Feedback>, threshold: int) {
    exists i :: LastEditEnd(h) <= i < |h| && Promotes(h, i, threshold)
  }

  /** When the template last lost automatic sending. */
  ghost function DemotedAt(h: seq<Feedback>, threshold: int): Option<int> {
    if h == [] then None
    else
      var init, f := h[..|h| - 1], h[|h| - 1];
      if f.Edit? && Promoted(init, threshold) then Some(f.at) else DemotedAt(init, threshold)
  }

  ghost function RowOf(h: seq<Feedback>, threshold: int): Row {
    Row(Streak(h), Approvals(h), Promoted(h, threshold), OptedIn(h), DemotedAt(h, threshold))
  }

  const EMPTY_ROW := Row(0, 0, false, false, None)

  // ---------- One more piece of feedback ----------

  lemma ApprovalsStep(s: seq<Feedback>, f: Feedback)
    ensures Approvals(s + [f]) == Approvals(s) + if f.Approval? then 1 else 0
  {
    assert (s + [f])[..|s|] == s;
  }

  lemma LastEditStep(h: seq<Feedback>, f: Feedback)
    ensures LastEditEnd(h + [f]) == if f.Edit? then |h| + 1 else LastEditEnd(h)
  {
    assert (h + [f])[..|h|] == h;
  }

  lemma StreakStep(h: seq<Feedback>, f: Feedback)
    ensures Streak(h + [f]) == if f.Edit? then 0 else if f.Approval? then Streak(h) + 1 else Streak(h)
  {
    LastEditStep(h, f);
    var g, k := h + [f], LastEditEnd(h + [f]);
    if f.Edit? {
      assert g[k..] == [];
    } else {
      assert g[k..] == h[k..] + [f];
      ApprovalsStep(h[k..], f);
    }
  }

  lemma CountersStep(h: seq<Feedback>, f: Feedback)
    ensures Approvals(h + [f]) == Approvals(h) + if f.Approval? then 1 else 0
    ensures OptedIn(h + [f]) == if f.OptIn? then f.enabled else OptedIn(h)
  {
    assert (h + [f])[..|h|] == h;
  }

  lemma PromotesPrefix(h: seq<Feedback>, f: Feedback, i: int, threshold: int)
    requires i < |h|
    ensures Promotes(h + [f], i, threshold) <==> Promotes(h, i, threshold)
  {
    if 0 <= i {
      assert (h + [f])[..i] == h[..i] && (h + [f])[..i + 1] == h[..i + 1];
    }
  }

  lemma PromotedStays(h: seq<Feedback>, f: Feedback, threshold: int)
    requires !f.Edit? && Promoted(h, threshold)
    ensures Promoted(h + [f], threshold)
  {
    LastEditStep(h, f);
    var i :| LastEditEnd(h) <= i < |h| && Promotes(h, i, threshold);
    PromotesPrefix(h, f, i, threshold);
  }

  lemma PromotedNow(h: seq<Feedback>, f: Feedback, threshold: int)
    ensures Promotes(h + [f], |h|, threshold) <==> f.Approval? && OptedIn(h) && Streak(h) + 1 >= threshold
  {
    var g := h + [f];
    StreakStep(h, f);
    assert g[..|h|] == h && g[..|h| + 1] == g;
  }

  lemma PromotedStep(h: seq<Feedback>, f: Feedback, threshold: int)
    ensures Promoted(h + [f], threshold)
            <==> !f.Edit? && (Promoted(h, threshold) || (f.Approval? && OptedIn(h) && Streak(h) + 1 >= threshold))
  {
    var g := h + [f];
    LastEditStep(h, f);
    PromotedNow(h, f, threshold);
    if Promoted(g, threshold) {
      var i :| LastEditEnd(g) <= i < |g| && Promotes(g, i, threshold);
      if i < |h| {
        PromotesPrefix(h, f, i, threshold);
      }
    } else if Promoted(h, threshold) && !f.Edit? {
      PromotedStays(h, f, threshold);
    }
  }

  lemma DemotedStep(h: seq<Feedback>, f: Feedback, threshold: int)
    ensures DemotedAt(h + [f], threshold)
            == if f.Edit? && Promoted(h, threshold) then Some(f.at) else DemotedAt(h, threshold)
  {
    assert (h + [f])[..|h|] == h;
  }

  /** What one piece of feedback does to a row. */
  function NextRow(r: Row, f: Feedback, threshold: int): Row {
    match f
    case OptIn(_, enabled) => r.(optedIn := enabled)
    case Approval(_) =>
      r.(streak := r.streak + 1, total := r.total + 1,
         autoSend := r.autoSend || (r.optedIn && r.streak + 1 >= threshold))
    case Edit(_, _, _, at) =>
      r.(streak := 0, autoSend := false, demotedAt := if r.autoSend then Some(at) else r.demotedAt)
  }

  lemma RowStep(h: seq<Feedback>, f: Feedback, threshold: int)
    ensures RowOf(h + [f], threshold) == NextRow(RowOf(h, threshold), f, threshold)
  {
    StreakStep(h, f);
    CountersStep(h, f);
    PromotedStep(h, f, threshold);
    DemotedStep(h, f, threshold);
  }

  // ---------- Automatic sending ----------

  /** The decision of `TrustPromotion.evaluate`, about the history. */
  ghost predicate SendsAutomatically(h: seq<Feedback>, threshold: int, allowed: bool) {
    Promoted(h, threshold) || ((OptedIn(h) || allowed) && Streak(h) >= threshold)
  }

  lemma {:induction false} StreakGrows(h: seq<Feedback>, i: nat)
    requires LastEditEnd(h) <= i < |h|
    ensures Streak(h[..i + 1]) <= Streak(h)
    decreases |h|
  {
    var init, f := h[..|h| - 1], h[|h| - 1];
    assert init + [f] == h;
    StreakStep(init, f);
    LastEditStep(init, f);
    if i + 1 < |h| {
      assert init[..i + 1] == h[..i + 1];
      StreakGrows(init, i);
    } else {
      assert h[..i + 1] == h;
    }
  }

  /** Automatic sending implies a threshold of consecutive unedited approvals since the last
      edit; and with that many it is decided by the present opt-in, the allow list, or a
      promotion since the last edit. */
  lemma AutoSendJustified(h: seq<Feedback>, threshold: int, allowed: bool)
    ensures SendsAutomatically(h, threshold, allowed)
            <==> Streak(h) >= threshold && (OptedIn(h) || allowed || Promoted(h, threshold))
  {
    if Promoted(h, threshold) {
      var i :| LastEditEnd(h) <= i < |h| && Promotes(h, i, threshold);
      StreakGrows(h, i);
    }
  }

  /** Opting out does not stop a promoted template from being sent automatically; an edit does. */
  lemma OptOutDoesNotDemote(h: seq<Feedback>, template: string, threshold: int)
    ensures !OptedIn(h + [OptIn(template, false)])
    ensures SendsAutomatically(h + [OptIn(template, false)], threshold, false) <==> Promoted(h, threshold)
  {
    CountersStep(h, OptIn(template, false));
    PromotedStep(h, OptIn(template, false), threshold);
  }

  lemma EditDemotes(h: seq<Feedback>, template: string, emailId: string, kind: string, at: int, threshold: int,
                    allowed: bool)
    requires threshold > 0
    ensures !SendsAutomatically(h + [Edit(template, emailId, kind, at)], threshold, allowed)
  {
    var f := Edit(template, emailId, kind, at);
    StreakStep(h, f);
    PromotedStep(h, f, threshold);
  }

  // ---------- The tables ----------

  /** A row of the log of edits. */
  datatype EditRow = EditRow(template: string, emailId: string, kind: string)

  ghost function EditRows(h: seq<Feedback>): seq<EditRow> {
    if h == [] then []
    else
      var f := h[|h| - 1];
      EditRows(h[..|h| - 1]) + if f.Edit? then [EditRow(f.template, f.emailId, f.kind)] else []
  }

  lemma EditRowsStep(h: seq<Feedback>, f: Feedback)
    ensures EditRows(h + [f]) == EditRows(h) + if f.Edit? then [EditRow(f.template, f.emailId, f.kind)] else []
  {
    assert (h + [f])[..|h|] == h;
  }

  /** The row of a template says what its own feedback implies; a template without a row has
      had none. */
  ghost predicate RowAgrees(rows: map<string, Row>, h: seq<Feedback>, template: string, threshold: int) {
    if template in rows then rows[template] == RowOf(Of(h, template), threshold) else Of(h, template) == []
  }

  ghost predicate RowsAgree(rows: map<string, Row>, h: seq<Feedback>, threshold: int) {
    forall t :: RowAgrees(rows, h, t, threshold)
  }

  lemma EmptyRowAgrees(rows: map<string, Row>, h: seq<Feedback>, template: string, threshold: int)
    requires RowsAgree(rows, h, threshold) && template !in rows
    ensures RowsAgree(rows[template := EMPTY_ROW], h, threshold)
  {
    var rows' := rows[template := EMPTY_ROW];
    forall t ensures RowAgrees(rows', h, t, threshold) {
      assert RowAgrees(rows, h, t, threshold);
    }
  }

  /** Feedback on one template changes its row alone. */
  lemma FeedbackAgrees(rows: map<string, Row>, h: seq<Feedback>, f: Feedback, threshold: int)
    requires RowsAgree(rows, h, threshold) && f.template in rows
    ensures RowsAgree(rows[f.template := NextRow(rows[f.template], f, threshold)], h + [f], threshold)
  {
    var rows', h' := rows[f.template := NextRow(rows[f.template], f, threshold)], h + [f];
    assert RowAgrees(rows, h, f.template, threshold);
    RowStep(Of(h, f.template), f, threshold);
    forall t ensures RowAgrees(rows', h', t, threshold) {
      assert RowAgrees(rows, h, t, threshold);
      OfStep(h, f, t);
      assert t != f.template ==> Of(h', t) == Of(h, t);
    }
  }
}
