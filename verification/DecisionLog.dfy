/** The texts of the decision log, and small steps of the email-triage classes. */
module DecisionLog {
  import opened Outcomes
  import opened Text
  import opened Calendar
  import opened IsoTime
  import opened TrustHistory
  import opened TriageSpec
  import Sorting

  ghost predicate Printed(texts: seq<string>, times: seq<Instant>) {
    |texts| == |times| && forall i :: 0 <= i < |texts| ==> texts[i] == Iso(times[i])
  }

  lemma PrintedStep(texts: seq<string>, times: seq<Instant>, now: Instant)
    requires Printed(texts, times)
    ensures Printed(texts + [Iso(now)], times + [now])
  {
  }

  /** Decision number `i` was made at `cutoff` or later and took one of the actions. */
  ghost predicate Selected(decisions: seq<Decision>, times: seq<Instant>, cutoff: Instant,
                           actions: Option<set<Action>>, i: int)
    requires |decisions| == |times|
  {
    0 <= i < |times| && cutoff <= times[i] && (actions == None || decisions[i].action in actions.value)
  }

  /** Without repeats, earlier decisions first. */
  ghost predicate InTimeOrder(times: seq<Instant>, ids: seq<nat>) {
    && (forall i :: 0 <= i < |ids| ==> ids[i] < |times|)
    && forall i, j :: 0 <= i < j < |ids| ==> ids[i] != ids[j] && times[ids[i]] <= times[ids[j]]
  }

  /** `ORDER BY decided_at`, on the texts. */
  function EarlierText(texts: seq<string>): (nat, nat) -> bool {
    (i: nat, j: nat) => i < |texts| && j < |texts| && Less(texts[i], texts[j])
  }

  ghost predicate SameOrder(texts: seq<string>, times: seq<Instant>) {
    && |texts| == |times|
    && forall i, j :: 0 <= i < |texts| && 0 <= j < |texts| ==> (Less(texts[i], texts[j]) <==> times[i] < times[j])
  }

  lemma PrintedInOrder(texts: seq<string>, times: seq<Instant>)
    requires Printed(texts, times)
    ensures SameOrder(texts, times)
  {
    forall i, j | 0 <= i < |texts| && 0 <= j < |texts| ensures Less(texts[i], texts[j]) <==> times[i] < times[j] {
      IsoOrder(times[i], times[j]);
    }
  }

  /** Sorting by text sorts by time. */
  lemma SortInTimeOrder(texts: seq<string>, times: seq<Instant>, ids: seq<nat>)
    requires Printed(texts, times) && Sorting.NoRepeats(ids) && forall i :: i in ids ==> i < |times|
    ensures InTimeOrder(times, Sorting.Sort(EarlierText(texts), ids))
  {
    var rank := (i: nat) => if i < |times| then times[i] as int else 0;
    PrintedInOrder(texts, times);
    RanksRespected(texts, times, ids, rank);
    Sorting.SortOrdered(EarlierText(texts), rank, ids);
    Sorting.SortNoRepeats(EarlierText(texts), ids);
    var r := Sorting.Sort(EarlierText(texts), ids);
    forall i | 0 <= i < |r| ensures r[i] < |times| && rank(r[i]) == times[r[i]] {
      assert r[i] in ids;
    }
  }

  lemma RanksRespected(texts: seq<string>, times: seq<Instant>, ids: seq<nat>, rank: nat -> int)
    requires SameOrder(texts, times) && forall i :: i in ids ==> i < |times|
    requires forall i: nat :: i < |times| ==> rank(i) == times[i]
    ensures Sorting.AllRespect(EarlierText(texts), rank, ids)
  {
    forall x, y | x in ids && y in ids ensures Sorting.Respects(EarlierText(texts), rank, x, y) {
      assert Less(texts[x], texts[y]) <==> times[x] < times[y];
    }
  }

  /** The comparison in the query. */
  lemma TextSelects(texts: seq<string>, times: seq<Instant>, cutoff: Instant, i: nat)
    requires Printed(texts, times) && i < |texts|
    ensures AtMost(Iso(cutoff), texts[i]) <==> cutoff <= times[i]
  {
    IsoAtMost(cutoff, times[i]);
  }

  /** The selected ones of the first `n` decisions, each once. */
  ghost predicate Listed(decisions: seq<Decision>, times: seq<Instant>, cutoff: Instant, actions: Option<set<Action>>,
                         ids: seq<nat>, n: nat)
    requires |decisions| == |times|
  {
    Sorting.NoRepeats(ids) && forall k :: k in ids <==> k < n && Selected(decisions, times, cutoff, actions, k)
  }

  lemma ListedStep(decisions: seq<Decision>, times: seq<Instant>, cutoff: Instant, actions: Option<set<Action>>,
                   ids: seq<nat>, n: nat)
    requires |decisions| == |times| && Listed(decisions, times, cutoff, actions, ids, n)
    ensures var next := if Selected(decisions, times, cutoff, actions, n) then ids + [n] else ids;
            Listed(decisions, times, cutoff, actions, next, n + 1)
  {
  }

  lemma ListedSorted(decisions: seq<Decision>, texts: seq<string>, times: seq<Instant>, cutoff: Instant,
                     actions: Option<set<Action>>, ids: seq<nat>)
    requires |decisions| == |times| && Printed(texts, times) && Listed(decisions, times, cutoff, actions, ids, |times|)
    ensures var r := Sorting.Sort(EarlierText(texts), ids);
            InTimeOrder(times, r) && forall i :: i in r <==> Selected(decisions, times, cutoff, actions, i)
  {
    SortInTimeOrder(texts, times, ids);
  }

  // ---------- The allowed templates ----------

  ghost predicate Enumerates(order: seq<string>, all: set<string>) {
    && (forall t :: t in order <==> t in all)
    && Sorting.NoRepeats(order)
  }

  /** One more template is taken out of the rest. */
  lemma EnumeratesStep(order: seq<string>, all: set<string>, rest: set<string>, t: string)
    requires Enumerates(order, all - rest) && t in rest && rest <= all
    ensures Enumerates(order + [t], all - (rest - {t}))
  {
  }

  lemma EnumeratesAll(order: seq<string>, all: set<string>)
    requires Enumerates(order, all - {})
    ensures Enumerates(order, all)
  {
  }

  lemma OptInsStep(order: seq<string>, t: string)
    ensures OptIns(order + [t]) == OptIns(order) + [OptIn(t, true)]
  {
    assert (order + [t])[..|order|] == order;
  }

  /** Of the templates, all but `rest` have been opted in since the history was `before`. */
  ghost predicate OptedIn(before: seq<Feedback>, now: seq<Feedback>, all: set<string>, rest: set<string>,
                          order: seq<string>) {
    rest <= all && Enumerates(order, all - rest) && now == before + OptIns(order)
  }

  lemma OptedInStep(before: seq<Feedback>, now: seq<Feedback>, all: set<string>, rest: set<string>,
                    order: seq<string>, t: string)
    requires OptedIn(before, now, all, rest, order) && t in rest
    ensures OptedIn(before, now + [OptIn(t, true)], all, rest - {t}, order + [t])
  {
    EnumeratesStep(order, all, rest, t);
    OptInsStep(order, t);
  }

  // ---------- Replies and pages ----------

  ghost predicate Replies(outbox: seq<(Key, string)>, sent: seq<Sent>) {
    |outbox| == |sent| && forall i :: 0 <= i < |sent| ==> outbox[i] == (sent[i].key, sent[i].template)
  }

  lemma RepliesStep(outbox: seq<(Key, string)>, sent: seq<Sent>, key: Key, t: string, seen: nat)
    requires Replies(outbox, sent)
    ensures Replies(outbox + [(key, t)], sent + [Sent(key, t, seen)])
  {
  }

  lemma PageStep(s: State, setup: Setup, mails: seq<Mail>, i: nat, raises: nat -> bool)
    requires i < |mails| && Page(s, setup, mails[..i], raises).1.Some?
    ensures var (t, sum) := Page(s, setup, mails[..i], raises);
            var (u, o) := Process(t, setup, mails[i], raises(i));
            Page(s, setup, mails[..i + 1], raises) == (u, if o == Raised then None else Some(Tally(sum.value, o)))
  {
    assert mails[..i + 1][..i] == mails[..i];
  }

  lemma StaysAbandoned(s: State, setup: Setup, mails: seq<Mail>, n: nat, raises: nat -> bool)
    requires n + 1 == |mails| && Page(s, setup, mails[..n], raises).1.None?
    ensures Page(s, setup, mails, raises) == (Page(s, setup, mails[..n], raises).0, None)
  {
  }

  lemma {:induction false} PageAbandoned(s: State, setup: Setup, mails: seq<Mail>, i: nat, raises: nat -> bool)
    requires i <= |mails| && Page(s, setup, mails[..i], raises).1.None?
    ensures Page(s, setup, mails, raises) == (Page(s, setup, mails[..i], raises).0, None)
    decreases |mails|
  {
    if i < |mails| {
      var n := |mails| - 1;
      var init := mails[..n];
      assert init[..i] == mails[..i];
      PageAbandoned(s, setup, init, i, raises);
      StaysAbandoned(s, setup, mails, n, raises);
    } else {
      assert mails[..i] == mails;
    }
  }
}
