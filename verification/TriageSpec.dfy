/** One tick of email triage as a function (ota_routines/email_triage/run.py), and what every
    sequence of ticks and operator feedback keeps. */
module TriageSpec {
  import opened Outcomes
  import opened Text
  import opened TrustHistory
  import opened Sorting

  /** An email id with the hash of its content. */
  type Key = (string, string)

  /** A fetched email; subject and body are lower-cased. */
  datatype Mail = Mail(id: string, contentHash: string, subject: string, body: string)

  /** A category; its keywords are lower-cased. */
  datatype Category = Category(name: string, keywords: seq<string>, template: string)

  datatype Action = DraftedAction | AutoSentAction | SkippedAction

  datatype Decision = Decision(runId: string, emailId: string, action: Action, category: Option<string>,
                               template: Option<string>)

  /** A sent reply, with the length of the feedback history when it was sent. */
  datatype Sent = Sent(key: Key, template: string, seen: nat)

  datatype Setup = Setup(runId: string, categories: seq<Category>, templates: set<string>, allowed: set<string>,
                         threshold: int)

  datatype Outcome = Drafted | AutoSent | Skipped | Duplicates | Raised

  function KeyOf(m: Mail): Key {
    (m.id, m.contentHash)
  }

  // ---------- Classification ----------

  predicate Contains(text: string, word: string) {
    Find(text, word, 0) != -1
  }

  predicate Hits(c: Category, m: Mail) {
    exists k :: 0 <= k < |c.keywords| && (Contains(m.subject, c.keywords[k]) || Contains(m.body, c.keywords[k]))
  }

  /** The word begins somewhere in the text. */
  ghost predicate Occurs(text: string, word: string) {
    exists i: nat :: OccursAt(text, word, i)
  }

  /** An email hits a category exactly if some keyword occurs in its subject or in its body. */
  lemma HitsMeans(c: Category, m: Mail)
    ensures Hits(c, m) <==> exists word :: word in c.keywords && (Occurs(m.subject, word) || Occurs(m.body, word))
  {
    if word :| word in c.keywords && (Occurs(m.subject, word) || Occurs(m.body, word)) {
      var k :| 0 <= k < |c.keywords| && c.keywords[k] == word;
      assert Contains(m.subject, c.keywords[k]) || Contains(m.body, c.keywords[k]);
    }
    if Hits(c, m) {
      var k :| 0 <= k < |c.keywords| && (Contains(m.subject, c.keywords[k]) || Contains(m.body, c.keywords[k]));
      assert c.keywords[k] in c.keywords;
      assert Occurs(m.subject, c.keywords[k]) || Occurs(m.body, c.keywords[k]);
    }
  }

  /** The name of the first category with a keyword in the subject or the body. */
  function Classify(categories: seq<Category>, m: Mail): Option<string> {
    if categories == [] then None
    else if Hits(categories[0], m) then Some(categories[0].name)
    else Classify(categories[1..], m)
  }

  /** Category number `i` is the first that the email hits. */
  ghost predicate FirstHit(categories: seq<Category>, m: Mail, i: int) {
    0 <= i < |categories| && Hits(categories[i], m) && forall j :: 0 <= j < i ==> !Hits(categories[j], m)
  }

  lemma {:induction false} ClassifyIsFirstHit(categories: seq<Category>, m: Mail, i: int)
    ensures Classify(categories, m) == None ==> !FirstHit(categories, m, i)
    ensures FirstHit(categories, m, i) ==> Classify(categories, m) == Some(categories[i].name)
  {
    if categories != [] && !Hits(categories[0], m) {
      ClassifyIsFirstHit(categories[1..], m, i - 1);
      if FirstHit(categories, m, i) {
        assert forall j :: 0 <= j < i - 1 ==> categories[1..][j] == categories[j + 1];
        assert FirstHit(categories[1..], m, i - 1);
      }
    }
  }

  function TemplateOf(categories: seq<Category>, name: string): Option<string> {
    if categories == [] then None
    else if categories[0].name == name then Some(categories[0].template)
    else TemplateOf(categories[1..], name)
  }

  /** Category number `i` is the first of the name. */
  ghost predicate FirstNamed(categories: seq<Category>, name: string, i: int) {
    0 <= i < |categories| && categories[i].name == name && forall j :: 0 <= j < i ==> categories[j].name != name
  }

  lemma {:induction false} TemplateIsFirstNamed(categories: seq<Category>, name: string, i: int)
    ensures TemplateOf(categories, name) == None ==> !FirstNamed(categories, name, i)
    ensures FirstNamed(categories, name, i) ==> TemplateOf(categories, name) == Some(categories[i].template)
  {
    if categories != [] && categories[0].name != name {
      TemplateIsFirstNamed(categories[1..], name, i - 1);
      if FirstNamed(categories, name, i) {
        assert forall j :: 0 <= j < i - 1 ==> categories[1..][j] == categories[j + 1];
        assert FirstNamed(categories[1..], name, i - 1);
      }
    }
  }

  /** What the classifier makes of an email. */
  datatype Verdict = SkipIt | NoTemplate(category: string) | Answer(category: string, template: string)

  function Judge(setup: Setup, m: Mail): Verdict {
    match Classify(setup.categories, m)
    case None => SkipIt
    case Some(name) =>
      if name == "skip" then SkipIt
      else
        match TemplateOf(setup.categories, name)
        case None => NoTemplate(name)
        case Some(t) => if t in setup.templates then Answer(name, t) else NoTemplate(name)
  }

  /** Of an email whose first hit is category `i`, and the first category of that name is `j`:
      it is skipped if the name is "skip", and otherwise answered with the template of `j`
      exactly if there is such a template. */
  lemma JudgeMeans(setup: Setup, m: Mail, i: int, j: int)
    requires FirstHit(setup.categories, m, i) && FirstNamed(setup.categories, setup.categories[i].name, j)
    ensures var (name, t) := (setup.categories[i].name, setup.categories[j].template);
            && (Judge(setup, m) == SkipIt <==> name == "skip")
            && (Judge(setup, m) == Answer(name, t) <==> name != "skip" && t in setup.templates)
            && (Judge(setup, m) == NoTemplate(name) <==> name != "skip" && t !in setup.templates)
  {
    ClassifyIsFirstHit(setup.categories, m, i);
    TemplateIsFirstNamed(setup.categories, setup.categories[i].name, j);
  }

  /** An email that no category hits is skipped. */
  lemma {:induction false} NoHitIsSkipped(setup: Setup, m: Mail)
    requires forall i :: 0 <= i < |setup.categories| ==> !Hits(setup.categories[i], m)
    ensures Judge(setup, m) == SkipIt
  {
    NothingClassified(setup.categories, m);
  }

  lemma {:induction false} NothingClassified(categories: seq<Category>, m: Mail)
    requires forall i :: 0 <= i < |categories| ==> !Hits(categories[i], m)
    ensures Classify(categories, m) == None
  {
    if categories != [] {
      NothingClassified(categories[1..], m);
    }
  }

  // ---------- One email ----------

  /** The tables, the sent replies, and the feedback; `keys` says which email each decision
      row was for. */
  datatype State = State(processed: set<Key>, decisions: seq<Decision>, keys: seq<Key>, sent: seq<Sent>,
                         history: seq<Feedback>)

  function Log(s: State, setup: Setup, m: Mail, action: Action, category: Option<string>,
               template: Option<string>): State {
    s.(decisions := s.decisions + [Decision(setup.runId, m.id, action, category, template)],
       keys := s.keys + [KeyOf(m)],
       processed := s.processed + {KeyOf(m)})
  }

  /** A reply is sent, which counts as an unedited approval of its template. */
  function Send(s: State, m: Mail, t: string): State {
    s.(sent := s.sent + [Sent(KeyOf(m), t, |s.history|)], history := s.history + [Approval(t)])
  }

  /** `_process_one`; `raises` says that drafting, sending or the approval card raises. */
  ghost function Process(s: State, setup: Setup, m: Mail, raises: bool): (State, Outcome) {
    if KeyOf(m) in s.processed then (s, Duplicates)
    else
      match Judge(setup, m)
      case SkipIt => (Log(s, setup, m, SkippedAction, None, None), Skipped)
      case NoTemplate(_) => (s, Skipped)
      case Answer(category, t) =>
        if raises then (s, Raised)
        else if SendsAutomatically(Of(s.history, t), setup.threshold, t in setup.allowed) then
          (Log(Send(s, m, t), setup, m, AutoSentAction, Some(category), Some(t)), AutoSent)
        else (Log(s, setup, m, DraftedAction, Some(category), Some(t)), Drafted)
  }

  /** What each outcome leaves: its decision row, the mark, the reply and the approval that a
      reply counts as. */
  lemma OutcomeLeaves(s: State, setup: Setup, m: Mail, raises: bool)
    ensures var (t, o) := Process(s, setup, m, raises);
            var v := Judge(setup, m);
            match o
            case Duplicates => t == s
            case Raised => t == s
            case Skipped =>
              if v.NoTemplate? then t == s
              else
                && t.decisions == s.decisions + [Decision(setup.runId, m.id, SkippedAction, None, None)]
                && t.processed == s.processed + {(m.id, m.contentHash)} && t.sent == s.sent && t.history == s.history
            case Drafted =>
              && v.Answer?
              && t.decisions
                 == s.decisions + [Decision(setup.runId, m.id, DraftedAction, Some(v.category), Some(v.template))]
              && t.processed == s.processed + {(m.id, m.contentHash)} && t.sent == s.sent && t.history == s.history
            case AutoSent =>
              && v.Answer?
              && t.decisions
                 == s.decisions + [Decision(setup.runId, m.id, AutoSentAction, Some(v.category), Some(v.template))]
              && t.processed == s.processed + {(m.id, m.contentHash)}
              && t.sent == s.sent + [Sent((m.id, m.contentHash), v.template, |s.history|)]
              && t.history == s.history + [Approval(v.template)]
  {
  }

  /** Why a template's email may be answered without asking. */
  ghost predicate MaySend(h: seq<Feedback>, threshold: int, allowed: bool) {
    Streak(h) >= threshold && (OptedIn(h) || allowed || Promoted(h, threshold))
  }

  /** When an email is answered, drafted or found a duplicate, in terms of the history. */
  lemma OutcomeMeans(s: State, setup: Setup, m: Mail, raises: bool)
    ensures var o := Process(s, setup, m, raises).1;
            var v := Judge(setup, m);
            && (o == Duplicates <==> KeyOf(m) in s.processed)
            && (o == Skipped <==> KeyOf(m) !in s.processed && !v.Answer?)
            && (o == Raised <==> KeyOf(m) !in s.processed && v.Answer? && raises)
            && (o == AutoSent <==> KeyOf(m) !in s.processed && v.Answer? && !raises
                                   && MaySend(Of(s.history, v.template), setup.threshold, v.template in setup.allowed))
  {
    var v := Judge(setup, m);
    if v.Answer? {
      AutoSendJustified(Of(s.history, v.template), setup.threshold, v.template in setup.allowed);
    }
  }

  // ---------- A page ----------

  datatype Summary = Summary(scanned: nat, drafted: nat, autoSent: nat, skipped: nat, duplicates: nat)

  const EMPTY_SUMMARY := Summary(0, 0, 0, 0, 0)

  function Tally(sum: Summary, o: Outcome): Summary
    requires o != Raised
  {
    var s := sum.(scanned := sum.scanned + 1);
    match o
    case Drafted => s.(drafted := s.drafted + 1)
    case AutoSent => s.(autoSent := s.autoSent + 1)
    case Skipped => s.(skipped := s.skipped + 1)
    case Duplicates => s.(duplicates := s.duplicates + 1)
  }

  /** The loop over a page; None when an email raised and the tick was abandoned. */
  ghost function Page(s: State, setup: Setup, mails: seq<Mail>, raises: nat -> bool): (State, Option<Summary>) {
    if mails == [] then (s, Some(EMPTY_SUMMARY))
    else
      var n := |mails| - 1;
      var (t, sum) := Page(s, setup, mails[..n], raises);
      if sum.None? then (t, None)
      else
        var (u, o) := Process(t, setup, mails[n], raises(n));
        (u, if o == Raised then None else Some(Tally(sum.value, o)))
  }

  // ---------- What always holds ----------

  ghost function AutoKeys(decisions: seq<Decision>, keys: seq<Key>): seq<Key>
    requires |decisions| == |keys|
  {
    if decisions == [] then []
    else
      var n := |decisions| - 1;
      AutoKeys(decisions[..n], keys[..n]) + if decisions[n].action == AutoSentAction then [keys[n]] else []
  }

  ghost function SentKeys(sent: seq<Sent>): seq<Key> {
    if sent == [] then [] else SentKeys(sent[..|sent| - 1]) + [sent[|sent| - 1].key]
  }

  /** A reply was sent only with a threshold of consecutive unedited approvals behind it. */
  ghost predicate Earned(x: Sent, history: seq<Feedback>, threshold: int) {
    x.seen <= |history| && Streak(Of(history[..x.seen], x.template)) >= threshold
  }

  ghost predicate Inv(s: State, threshold: int) {
    && |s.decisions| == |s.keys|
    && (forall i :: 0 <= i < |s.keys| ==> s.decisions[i].emailId == s.keys[i].0)
    && NoRepeats(s.keys)
    && (forall k :: k in s.keys <==> k in s.processed)
    && SentKeys(s.sent) == AutoKeys(s.decisions, s.keys)
    && forall i :: 0 <= i < |s.sent| ==> Earned(s.sent[i], s.history, threshold)
  }

  lemma SentStep(sent: seq<Sent>, x: Sent)
    ensures SentKeys(sent + [x]) == SentKeys(sent) + [x.key]
  {
    assert (sent + [x])[..|sent|] == sent;
  }

  lemma LogStep(s: State, setup: Setup, m: Mail, action: Action, category: Option<string>, template: Option<string>)
    requires |s.decisions| == |s.keys|
    ensures var t := Log(s, setup, m, action, category, template);
            AutoKeys(t.decisions, t.keys)
            == AutoKeys(s.decisions, s.keys) + if action == AutoSentAction then [KeyOf(m)] else []
  {
    var t := Log(s, setup, m, action, category, template);
    assert t.decisions[..|s.decisions|] == s.decisions && t.keys[..|s.keys|] == s.keys;
  }

  lemma EarnedStays(x: Sent, history: seq<Feedback>, f: Feedback, threshold: int)
    requires Earned(x, history, threshold)
    ensures Earned(x, history + [f], threshold)
  {
    assert (history + [f])[..x.seen] == history[..x.seen];
  }

  lemma EarnedNow(key: Key, t: string, history: seq<Feedback>, threshold: int, allowed: bool, f: Feedback)
    requires SendsAutomatically(Of(history, t), threshold, allowed)
    ensures Earned(Sent(key, t, |history|), history + [f], threshold)
  {
    AutoSendJustified(Of(history, t), threshold, allowed);
    assert (history + [f])[..|history|] == history;
  }

  /** A new row for an email not yet processed. */
  lemma LogKeeps(s: State, setup: Setup, m: Mail, action: Action, category: Option<string>, template: Option<string>)
    requires KeyOf(m) !in s.processed && |s.decisions| == |s.keys|
    requires forall i :: 0 <= i < |s.keys| ==> s.decisions[i].emailId == s.keys[i].0
    requires NoRepeats(s.keys) && forall k :: k in s.keys <==> k in s.processed
    ensures var t := Log(s, setup, m, action, category, template);
            && |t.decisions| == |t.keys| && NoRepeats(t.keys)
            && (forall i :: 0 <= i < |t.keys| ==> t.decisions[i].emailId == t.keys[i].0)
            && forall k :: k in t.keys <==> k in t.processed
  {
    assert KeyOf(m) !in s.keys;
  }

  lemma LogUnsentKeeps(s: State, setup: Setup, m: Mail, action: Action, category: Option<string>,
                       template: Option<string>)
    requires Inv(s, setup.threshold) && KeyOf(m) !in s.processed && action != AutoSentAction
    ensures Inv(Log(s, setup, m, action, category, template), setup.threshold)
  {
    LogKeeps(s, setup, m, action, category, template);
    LogStep(s, setup, m, action, category, template);
  }

  lemma SendKeeps(s: State, setup: Setup, m: Mail, category: string, t: string)
    requires Inv(s, setup.threshold) && KeyOf(m) !in s.processed
    requires SendsAutomatically(Of(s.history, t), setup.threshold, t in setup.allowed)
    ensures Inv(Log(Send(s, m, t), setup, m, AutoSentAction, Some(category), Some(t)), setup.threshold)
  {
    var sent := Send(s, m, t);
    LogKeeps(sent, setup, m, AutoSentAction, Some(category), Some(t));
    LogStep(sent, setup, m, AutoSentAction, Some(category), Some(t));
    SentStep(s.sent, Sent(KeyOf(m), t, |s.history|));
    forall i | 0 <= i < |sent.sent| ensures Earned(sent.sent[i], sent.history, setup.threshold) {
      if i < |s.sent| {
        EarnedStays(s.sent[i], s.history, Approval(t), setup.threshold);
      } else {
        EarnedNow(KeyOf(m), t, s.history, setup.threshold, t in setup.allowed, Approval(t));
      }
    }
  }

  /** Every email keeps the invariant, whatever happens to it. */
  lemma ProcessKeeps(s: State, setup: Setup, m: Mail, raises: bool)
    requires Inv(s, setup.threshold)
    ensures Inv(Process(s, setup, m, raises).0, setup.threshold)
  {
    if KeyOf(m) !in s.processed {
      match Judge(setup, m)
      case SkipIt => LogUnsentKeeps(s, setup, m, SkippedAction, None, None);
      case NoTemplate(_) =>
      case Answer(category, t) =>
        if SendsAutomatically(Of(s.history, t), setup.threshold, t in setup.allowed) {
          SendKeeps(s, setup, m, category, t);
        } else {
          LogUnsentKeeps(s, setup, m, DraftedAction, Some(category), Some(t));
        }
    }
  }

  /** Feedback between ticks keeps it too. */
  lemma FeedbackKeeps(s: State, f: Feedback, threshold: int)
    requires Inv(s, threshold)
    ensures Inv(s.(history := s.history + [f]), threshold)
  {
    forall i | 0 <= i < |s.sent| ensures Earned(s.sent[i], s.history + [f], threshold) {
      EarnedStays(s.sent[i], s.history, f, threshold);
    }
  }

  lemma {:induction false} PageKeeps(s: State, setup: Setup, mails: seq<Mail>, raises: nat -> bool)
    requires Inv(s, setup.threshold)
    ensures Inv(Page(s, setup, mails, raises).0, setup.threshold)
  {
    if mails != [] {
      var n := |mails| - 1;
      PageKeeps(s, setup, mails[..n], raises);
      ProcessKeeps(Page(s, setup, mails[..n], raises).0, setup, mails[n], raises(n));
    }
  }

  // ---------- Consequences ----------

  lemma {:induction false} AutoKeysDistinct(decisions: seq<Decision>, keys: seq<Key>)
    requires |decisions| == |keys| && NoRepeats(keys)
    ensures NoRepeats(AutoKeys(decisions, keys))
    ensures forall k :: k in AutoKeys(decisions, keys) ==> k in keys
  {
    if decisions != [] {
      var n := |decisions| - 1;
      AutoKeysDistinct(decisions[..n], keys[..n]);
      assert keys[n] !in keys[..n];
      var before := AutoKeys(decisions[..n], keys[..n]);
      assert keys[n] !in before;
      assert NoRepeats(before + [keys[n]]);
    }
  }

  /** Each email content is sent at most once, and only if it is marked processed; sent
      replies are exactly the auto_sent rows. */
  lemma SentAtMostOnce(s: State, threshold: int)
    requires Inv(s, threshold)
    ensures NoRepeats(SentKeys(s.sent)) && SentKeys(s.sent) == AutoKeys(s.decisions, s.keys)
    ensures forall k :: k in SentKeys(s.sent) ==> k in s.processed
  {
    AutoKeysDistinct(s.decisions, s.keys);
  }

  ghost function Total(sum: Summary): nat {
    sum.drafted + sum.autoSent + sum.skipped + sum.duplicates
  }

  /** What one email adds to the tables. */
  ghost predicate Grows(s: State, t: State, o: Outcome) {
    && |t.sent| == |s.sent| + (if o == AutoSent then 1 else 0)
    && |s.keys| <= |t.keys| <= |s.keys| + 1
    && ((o == AutoSent || o == Drafted) ==> |t.keys| == |s.keys| + 1)
    && ((o == Duplicates || o == Raised) ==> t == s)
  }

  lemma ProcessGrows(s: State, setup: Setup, m: Mail, raises: bool)
    ensures var (t, o) := Process(s, setup, m, raises); Grows(s, t, o)
  {
  }

  /** The summary accounts for every one of `n` emails, for every reply sent and for every
      row added. */
  ghost predicate Accounts(s: State, t: State, sum: Summary, n: nat) {
    && sum.scanned == n == Total(sum)
    && sum.autoSent == |t.sent| - |s.sent|
    && sum.drafted + sum.autoSent <= |t.keys| - |s.keys| <= n - sum.duplicates
  }

  lemma AccountsStep(s: State, t: State, u: State, sum: Summary, n: nat, o: Outcome)
    requires Accounts(s, t, sum, n) && Grows(t, u, o) && o != Raised
    ensures Accounts(s, u, Tally(sum, o), n + 1)
  {
  }

  lemma {:induction false} SummaryAdds(s: State, setup: Setup, mails: seq<Mail>, raises: nat -> bool)
    ensures var (t, sum) := Page(s, setup, mails, raises); sum.Some? ==> Accounts(s, t, sum.value, |mails|)
  {
    if mails != [] {
      var n := |mails| - 1;
      SummaryAdds(s, setup, mails[..n], raises);
      var (t, sum) := Page(s, setup, mails[..n], raises);
      if sum.Some? {
        var (u, o) := Process(t, setup, mails[n], raises(n));
        ProcessGrows(t, setup, mails[n], raises(n));
        if o != Raised {
          AccountsStep(s, t, u, sum.value, n, o);
        }
      }
    }
  }

  /** The email at `i` is one the tick settles itself, rather than leaving for a template. */
  ghost predicate Settles(setup: Setup, mails: seq<Mail>, i: int, k: Key) {
    0 <= i < |mails| && KeyOf(mails[i]) == k && !Judge(setup, mails[i]).NoTemplate?
  }

  lemma {:induction false} ProcessMarks(s: State, setup: Setup, m: Mail, raises: bool)
    requires Process(s, setup, m, raises).1 != Raised
    ensures Process(s, setup, m, raises).0.processed
            == s.processed + if Judge(setup, m).NoTemplate? then {} else {KeyOf(m)}
  {
  }

  /** A finished tick marks exactly the emails it settles; an email skipped for want of a
      template stays unmarked. */
  lemma {:induction false} MarkedExactly(s: State, setup: Setup, mails: seq<Mail>, raises: nat -> bool, k: Key)
    requires Page(s, setup, mails, raises).1.Some?
    ensures k in Page(s, setup, mails, raises).0.processed
            <==> k in s.processed || exists i :: Settles(setup, mails, i, k)
  {
    if mails != [] {
      var n := |mails| - 1;
      MarkedExactly(s, setup, mails[..n], raises, k);
      ProcessMarks(Page(s, setup, mails[..n], raises).0, setup, mails[n], raises(n));
      assert Settles(setup, mails, n, k) <==> KeyOf(mails[n]) == k && !Judge(setup, mails[n]).NoTemplate?;
      if i :| Settles(setup, mails, i, k) {
        assert i < n ==> Settles(setup, mails[..n], i, k);
      }
      if i :| Settles(setup, mails[..n], i, k) {
        assert Settles(setup, mails, i, k);
      }
    }
  }

  /** The outcomes of a page, email by email. */
  ghost function PageOutcomes(s: State, setup: Setup, mails: seq<Mail>, raises: nat -> bool): seq<Outcome> {
    if mails == [] then []
    else
      var n := |mails| - 1;
      PageOutcomes(s, setup, mails[..n], raises)
      + [Process(Page(s, setup, mails[..n], raises).0, setup, mails[n], raises(n)).1]
  }

  ghost function CountOf(outcomes: seq<Outcome>, o: Outcome): nat {
    if outcomes == [] then 0
    else CountOf(outcomes[..|outcomes| - 1], o) + if outcomes[|outcomes| - 1] == o then 1 else 0
  }

  lemma CountStep(outcomes: seq<Outcome>, last: Outcome, o: Outcome)
    ensures CountOf(outcomes + [last], o) == CountOf(outcomes, o) + if last == o then 1 else 0
  {
    assert (outcomes + [last])[..|outcomes|] == outcomes;
  }

  /** Each counter of a finished tick is the number of emails with that outcome. */
  ghost predicate Counted(sum: Summary, outcomes: seq<Outcome>) {
    && sum.scanned == |outcomes|
    && sum.drafted == CountOf(outcomes, Drafted) && sum.autoSent == CountOf(outcomes, AutoSent)
    && sum.skipped == CountOf(outcomes, Skipped) && sum.duplicates == CountOf(outcomes, Duplicates)
  }

  lemma CountedStep(sum: Summary, outcomes: seq<Outcome>, o: Outcome)
    requires Counted(sum, outcomes) && o != Raised
    ensures Counted(Tally(sum, o), outcomes + [o])
  {
    CountStep(outcomes, o, Drafted);
    CountStep(outcomes, o, AutoSent);
    CountStep(outcomes, o, Skipped);
    CountStep(outcomes, o, Duplicates);
  }

  lemma {:induction false} SummaryCounts(s: State, setup: Setup, mails: seq<Mail>, raises: nat -> bool)
    requires Page(s, setup, mails, raises).1.Some?
    ensures Counted(Page(s, setup, mails, raises).1.value, PageOutcomes(s, setup, mails, raises))
  {
    if mails != [] {
      var n := |mails| - 1;
      SummaryCounts(s, setup, mails[..n], raises);
      var (t, sum) := Page(s, setup, mails[..n], raises);
      CountedStep(sum.value, PageOutcomes(s, setup, mails[..n], raises), Process(t, setup, mails[n], raises(n)).1);
    }
  }

  /** An email that another tick would leave alone. */
  predicate Settled(s: State, setup: Setup, m: Mail) {
    KeyOf(m) in s.processed || Judge(setup, m).NoTemplate?
  }

  lemma {:induction false} PageSettles(s: State, setup: Setup, mails: seq<Mail>, raises: nat -> bool)
    requires Page(s, setup, mails, raises).1.Some?
    ensures forall m :: m in mails ==> Settled(Page(s, setup, mails, raises).0, setup, m)
  {
    if mails != [] {
      var n := |mails| - 1;
      PageSettles(s, setup, mails[..n], raises);
      assert mails == mails[..n] + [mails[n]];
    }
  }

  lemma {:induction false} SettledPage(s: State, setup: Setup, mails: seq<Mail>, raises: nat -> bool)
    requires forall m :: m in mails ==> Settled(s, setup, m)
    ensures Page(s, setup, mails, raises).0 == s && Page(s, setup, mails, raises).1.Some?
  {
    if mails != [] {
      var n := |mails| - 1;
      assert mails == mails[..n] + [mails[n]];
      assert mails[n] in mails;
      SettledPage(s, setup, mails[..n], raises);
    }
  }

  /** Running a finished tick again over the same page sends nothing and records nothing,
      also after more feedback. */
  lemma SecondTickIsIdle(s: State, setup: Setup, mails: seq<Mail>, raises: nat -> bool, again: nat -> bool,
                         more: seq<Feedback>)
    requires Page(s, setup, mails, raises).1.Some?
    ensures var t := Page(s, setup, mails, raises).0;
            Page(t.(history := more), setup, mails, again).0 == t.(history := more)
  {
    PageSettles(s, setup, mails, raises);
    var t := Page(s, setup, mails, raises).0;
    forall m | m in mails ensures Settled(t.(history := more), setup, m) {
      assert Settled(t, setup, m);
    }
    SettledPage(t.(history := more), setup, mails, again);
  }

  // ---------- Ticks and feedback in any order ----------

  /** A tick first opts in the allowed templates, in the order their set yields them. */
  function OptIns(order: seq<string>): (r: seq<Feedback>)
    ensures |r| == |order|
  {
    if order == [] then [] else OptIns(order[..|order| - 1]) + [OptIn(order[|order| - 1], true)]
  }

  datatype Step =
    | Tick(setup: Setup, order: seq<string>, mails: seq<Mail>, raises: nat -> bool)
    | Operator(feedback: Feedback)

  const EMPTY_STATE := State({}, [], [], [], [])

  ghost function Run(steps: seq<Step>): State {
    if steps == [] then EMPTY_STATE
    else
      var s := Run(steps[..|steps| - 1]);
      match steps[|steps| - 1]
      case Tick(setup, order, mails, raises) => Page(s.(history := s.history + OptIns(order)), setup, mails, raises).0
      case Operator(f) => s.(history := s.history + [f])
  }

  lemma {:induction false} OptInsKeep(s: State, order: seq<string>, threshold: int)
    requires Inv(s, threshold)
    ensures Inv(s.(history := s.history + OptIns(order)), threshold)
  {
    if order == [] {
      assert s.history + [] == s.history;
    } else {
      var n := |order| - 1;
      OptInsKeep(s, order[..n], threshold);
      var before := s.(history := s.history + OptIns(order[..n]));
      FeedbackKeeps(before, OptIn(order[n], true), threshold);
      assert s.history + OptIns(order) == before.history + [OptIn(order[n], true)];
    }
  }

  /** The invariant holds after any ticks and any feedback, also ticks that raised. */
  lemma {:induction false} RunKeeps(steps: seq<Step>, threshold: int)
    requires forall i :: 0 <= i < |steps| && steps[i].Tick? ==> steps[i].setup.threshold == threshold
    ensures Inv(Run(steps), threshold)
  {
    if steps != [] {
      var n := |steps| - 1;
      RunKeeps(steps[..n], threshold);
      var s := Run(steps[..n]);
      match steps[n]
      case Tick(setup, order, mails, raises) =>
        OptInsKeep(s, order, threshold);
        PageKeeps(s.(history := s.history + OptIns(order)), setup, mails, raises);
      case Operator(f) => FeedbackKeeps(s, f, threshold);
    }
  }

  /** In every run no email content is answered automatically twice, the replies are exactly
      the auto_sent rows, and each had a threshold of unedited approvals behind it. */
  lemma RunSendsOnce(steps: seq<Step>, threshold: int)
    requires forall i :: 0 <= i < |steps| && steps[i].Tick? ==> steps[i].setup.threshold == threshold
    ensures var s := Run(steps);
            && |s.decisions| == |s.keys|
            && NoRepeats(SentKeys(s.sent)) && SentKeys(s.sent) == AutoKeys(s.decisions, s.keys)
            && forall i :: 0 <= i < |s.sent| ==> Earned(s.sent[i], s.history, threshold)
  {
    RunKeeps(steps, threshold);
    SentAtMostOnce(Run(steps), threshold);
  }
}
