/** Email triage (ota_routines/email_triage): the tables, the policy that promotes a template
    to automatic sending, and the tick.  Emails, templates, clock readings and the failures
    of calls to other services are inputs. */
module Triage {
  import opened Outcomes
  import opened Text
  import opened Calendar
  import opened IsoTime
  import opened TrustHistory
  import opened TriageSpec
  import opened DecisionLog
  import Sorting

  class EmailTriageState {
    const threshold: int
    var processed: set<Key>
    var rows: map<string, Row>
    var edits: seq<EditRow>
    var decisions: seq<Decision>
    /** The `decided_at` column. */
    var decidedAt: seq<string>

    /** All feedback so far, and the instant of every decision. */
    ghost var history: seq<Feedback>
    ghost var times: seq<Instant>

    ghost predicate Valid() reads this {
      && RowsAgree(rows, history, threshold)
      && edits == EditRows(history)
      && |decisions| == |times| && Printed(decidedAt, times)
    }

    constructor (threshold: int)
      ensures Valid() && this.threshold == threshold
      ensures processed == {} && decisions == [] && history == []
    {
      this.threshold := threshold;
      processed, rows, edits, decisions, decidedAt := {}, map[], [], [], [];
      history, times := [], [];
    }

    method MarkProcessed(emailId: string, contentHash: string) returns (isNew: bool)
      modifies this`processed
      ensures isNew <==> (emailId, contentHash) !in old(processed)
      ensures processed == old(processed) + {(emailId, contentHash)}
    {
      isNew := (emailId, contentHash) !in processed;
      if isNew {
        processed := processed + {(emailId, contentHash)};
      }
    }

    method IsProcessed(emailId: string, contentHash: string) returns (seen: bool)
      ensures seen <==> (emailId, contentHash) in processed
    {
      seen := (emailId, contentHash) in processed;
    }

    method EnsureTrustRow(template: string)
      requires Valid()
      modifies this`rows
      ensures Valid() && template in rows
      ensures forall t :: t in old(rows) ==> t in rows && rows[t] == old(rows)[t]
    {
      if template in rows {
        return;
      }
      EmptyRowAgrees(rows, history, template, threshold);
      rows := rows[template := EMPTY_ROW];
    }

    method Trust(template: string) returns (row: Row)
      requires Valid()
      modifies this`rows
      ensures Valid() && row == RowOf(Of(history, template), threshold)
    {
      EnsureTrustRow(template);
      assert RowAgrees(rows, history, template, threshold);
      row := rows[template];
    }

    method OptInAutoSend(template: string, enabled: bool) returns (row: Row)
      requires Valid()
      modifies this`rows, this`history
      ensures Valid() && history == old(history) + [OptIn(template, enabled)]
      ensures row == RowOf(Of(history, template), threshold)
    {
      EnsureTrustRow(template);
      FeedbackAgrees(rows, history, OptIn(template, enabled), threshold);
      EditRowsStep(history, OptIn(template, enabled));
      rows := rows[template := rows[template].(optedIn := enabled)];
      history := history + [OptIn(template, enabled)];
      row := Trust(template);
    }

    method RecordUneditedApproval(template: string) returns (row: Row)
      requires Valid()
      modifies this`rows, this`history
      ensures Valid() && history == old(history) + [Approval(template)]
      ensures row == RowOf(Of(history, template), threshold)
    {
      EnsureTrustRow(template);
      var current := rows[template];
      var newCount := current.streak + 1;
      var promote := current.optedIn && !current.autoSend && newCount >= threshold;
      var updated := current.(streak := newCount, total := current.total + 1, autoSend := current.autoSend || promote);
      assert updated == NextRow(current, Approval(template), threshold);
      FeedbackAgrees(rows, history, Approval(template), threshold);
      EditRowsStep(history, Approval(template));
      rows := rows[template := updated];
      history := history + [Approval(template)];
      row := Trust(template);
    }

    method RecordEdit(template: string, emailId: string, kind: string, now: int) returns (row: Row)
      requires Valid()
      modifies this`rows, this`edits, this`history
      ensures Valid() && history == old(history) + [Edit(template, emailId, kind, now)]
      ensures edits == old(edits) + [EditRow(template, emailId, kind)]
      ensures row == RowOf(Of(history, template), threshold)
    {
      EnsureTrustRow(template);
      var current := rows[template];
      var demote := current.autoSend;
      FeedbackAgrees(rows, history, Edit(template, emailId, kind, now), threshold);
      EditRowsStep(history, Edit(template, emailId, kind, now));
      edits := edits + [EditRow(template, emailId, kind)];
      var demotedAt := if demote then Some(now) else current.demotedAt;
      rows := rows[template := current.(streak := 0, autoSend := false, demotedAt := demotedAt)];
      history := history + [Edit(template, emailId, kind, now)];
      row := Trust(template);
    }

    method RecordDecision(d: Decision, now: Instant)
      requires Valid()
      modifies this`decisions, this`decidedAt, this`times
      ensures Valid() && decisions == old(decisions) + [d] && times == old(times) + [now]
    {
      PrintedStep(decidedAt, times, now);
      decisions := decisions + [d];
      decidedAt := decidedAt + [Iso(now)];
      times := times + [now];
    }

    /** The positions of the decisions since `cutoff`, in the order of their times: the query
        compares and orders texts, the result is about instants. */
    method RecentDecisions(cutoff: Instant, actions: Option<set<Action>>) returns (ids: seq<nat>)
      requires Valid()
      ensures forall i :: i in ids <==> Selected(decisions, times, cutoff, actions, i)
      ensures InTimeOrder(times, ids)
    {
      ids := [];
      var from := Iso(cutoff);
      for i := 0 to |decisions|
        invariant Listed(decisions, times, cutoff, actions, ids, i)
      {
        TextSelects(decidedAt, times, cutoff, i);
        ListedStep(decisions, times, cutoff, actions, ids, i);
        if AtMost(from, decidedAt[i]) && (actions == None || decisions[i].action in actions.value) {
          ids := ids + [i];
        }
      }
      ListedSorted(decisions, decidedAt, times, cutoff, actions, ids);
      ids := Sorting.Sort(EarlierText(decidedAt), ids);
    }
  }

  datatype SendDecision = SendDecision(template: string, autoSend: bool, requiresApproval: bool, trust: Row)

  class TrustPromotion {
    const state: EmailTriageState
    const allowed: set<string>

    /** Every allowed template is opted in, once. */
    constructor (state: EmailTriageState, allowed: set<string>)
      requires state.Valid()
      modifies state`rows, state`history
      ensures this.state == state && this.allowed == allowed && state.Valid()
      ensures exists order :: Enumerates(order, allowed) && state.history == old(state.history) + OptIns(order)
    {
      this.state := state;
      this.allowed := allowed;
      new;
      ghost var order: seq<string> := [];
      var rest := allowed;
      while rest != {}
        invariant state.Valid() && DecisionLog.OptedIn(old(state.history), state.history, allowed, rest, order)
      {
        var template :| template in rest;
        OptedInStep(old(state.history), state.history, allowed, rest, order, template);
        var _ := state.OptInAutoSend(template, true);
        rest := rest - {template};
        order := order + [template];
      }
      EnumeratesAll(order, allowed);
    }

    /** Automatic sending is decided by the template's feedback history. */
    method Evaluate(template: string) returns (d: SendDecision)
      requires state.Valid()
      modifies state`rows
      ensures state.Valid() && d.template == template && d.requiresApproval == !d.autoSend
      ensures d.trust == RowOf(Of(state.history, template), state.threshold)
      ensures d.autoSend <==> SendsAutomatically(Of(state.history, template), state.threshold, template in allowed)
    {
      var trust := state.Trust(template);
      var optedIn := trust.optedIn || template in allowed;
      var thresholdMet := trust.streak >= state.threshold;
      var autoSend := trust.autoSend || (optedIn && thresholdMet);
      d := SendDecision(template, autoSend, !autoSend, trust);
    }

    method RecordApproval(template: string) returns (row: Row)
      requires state.Valid()
      modifies state`rows, state`history
      ensures state.Valid() && state.history == old(state.history) + [Approval(template)]
    {
      row := state.RecordUneditedApproval(template);
    }
  }

  class EmailTriage {
    const state: EmailTriageState
    /** The replies sent, with their templates. */
    var outbox: seq<(Key, string)>

    ghost var log: State

    ghost predicate Valid() reads this, state {
      && state.Valid()
      && log.processed == state.processed && log.decisions == state.decisions && log.history == state.history
      && Replies(outbox, log.sent)
    }

    constructor (state: EmailTriageState)
      requires state.Valid() && state.processed == {} && state.decisions == []
      ensures Valid() && this.state == state && outbox == []
      ensures log == State({}, [], [], [], state.history)
    {
      this.state := state;
      outbox := [];
      log := State({}, [], [], [], state.history);
    }

    /** One email; a call that raises leaves everything as it was. */
    method ProcessOne(trust: TrustPromotion, setup: Setup, m: Mail, raises: bool, now: Instant) returns (o: Outcome)
      requires Valid() && trust.state == state && trust.allowed == setup.allowed && setup.threshold == state.threshold
      modifies this`outbox, this`log, state
      ensures Valid() && (log, o) == Process(old(log), setup, m, raises)
    {
      var seen := state.IsProcessed(m.id, m.contentHash);
      if seen {
        return Duplicates;
      }
      var classification := Classify(setup.categories, m);
      if classification == None || classification.value == "skip" {
        state.RecordDecision(Decision(setup.runId, m.id, SkippedAction, None, None), now);
        var _ := state.MarkProcessed(m.id, m.contentHash);
        log := Log(log, setup, m, SkippedAction, None, None);
        return Skipped;
      }
      var template := TemplateOf(setup.categories, classification.value);
      if template == None || template.value !in setup.templates {
        return Skipped;
      }
      var t := template.value;
      var decision := trust.Evaluate(t);
      if raises {
        return Raised;
      }
      if decision.autoSend {
        RepliesStep(outbox, log.sent, KeyOf(m), t, |log.history|);
        outbox := outbox + [(KeyOf(m), t)];
        state.RecordDecision(Decision(setup.runId, m.id, AutoSentAction, classification, Some(t)), now);
        var _ := trust.RecordApproval(t);
        var _ := state.MarkProcessed(m.id, m.contentHash);
        log := Log(Send(log, m, t), setup, m, AutoSentAction, classification, Some(t));
        return AutoSent;
      }
      state.RecordDecision(Decision(setup.runId, m.id, DraftedAction, classification, Some(t)), now);
      var _ := state.MarkProcessed(m.id, m.contentHash);
      log := Log(log, setup, m, DraftedAction, classification, Some(t));
      return Drafted;
    }

    /** One tick over a page of emails; None when a call raised and the tick was abandoned. */
    method Tick(setup: Setup, mails: seq<Mail>, raises: nat -> bool, clock: nat -> Instant)
      returns (summary: Option<Summary>)
      requires Valid() && setup.threshold == state.threshold
      modifies this`outbox, this`log, state
      ensures Valid()
      ensures exists order :: Enumerates(order, setup.allowed)
                && (log, summary) == Page(old(log).(history := old(log).history + OptIns(order)), setup, mails, raises)
    {
      var trust := new TrustPromotion(state, setup.allowed);
      ghost var order :| Enumerates(order, setup.allowed) && state.history == old(state.history) + OptIns(order);
      log := log.(history := state.history);
      ghost var start := log;
      var sum := EMPTY_SUMMARY;
      for i := 0 to |mails|
        invariant Valid() && (log, Some(sum)) == Page(start, setup, mails[..i], raises)
      {
        PageStep(start, setup, mails, i, raises);
        var o := ProcessOne(trust, setup, mails[i], raises(i), clock(i));
        if o == Raised {
          PageAbandoned(start, setup, mails, i + 1, raises);
          return None;
        }
        sum := Tally(sum, o);
      }
      assert mails[..|mails|] == mails;
      summary := Some(sum);
    }
  }
}
