/** Lists of gates by creation time, and the expiry of a batch of gates. */
module GateBatches {
  import opened Outcomes
  import opened GateTrail
  import opened Sorting

  // ---------- Creation order ----------

  ghost predicate InCreationOrder(rows: map<string, Gate>, pks: seq<string>) {
    && (forall pk :: pk in pks ==> pk in rows)
    && forall i, j :: 0 <= i < j < |pks| ==> rows[pks[i]].createdAt <= rows[pks[j]].createdAt
  }

  /** `ORDER BY created_at`; the order of equal times is the database's. */
  function OlderFirst(rows: map<string, Gate>): (string, string) -> bool {
    (p: string, q: string) => p in rows && q in rows && rows[p].createdAt < rows[q].createdAt
  }

  lemma SortInOrder(rows: map<string, Gate>, pks: seq<string>)
    requires NoRepeats(pks) && forall pk :: pk in pks ==> pk in rows
    ensures NoRepeats(Sort(OlderFirst(rows), pks)) && InCreationOrder(rows, Sort(OlderFirst(rows), pks))
  {
    var rank := (pk: string) => if pk in rows then rows[pk].createdAt else 0;
    SortOrdered(OlderFirst(rows), rank, pks);
    SortNoRepeats(OlderFirst(rows), pks);
    var r := Sort(OlderFirst(rows), pks);
    forall i, j | 0 <= i < j < |r| ensures rows[r[i]].createdAt <= rows[r[j]].createdAt {
      assert r[i] in pks && r[j] in pks && rank(r[i]) <= rank(r[j]);
    }
  }

  lemma AppendInOrder(rows: map<string, Gate>, pks: seq<string>, i: nat, some: seq<string>)
    requires i < |pks| && NoRepeats(pks) && InCreationOrder(rows, pks)
    requires NoRepeats(some) && InCreationOrder(rows, some) && forall q :: q in some ==> q in pks[..i]
    ensures NoRepeats(some + [pks[i]]) && InCreationOrder(rows, some + [pks[i]])
  {
    forall k | 0 <= k < |some| ensures some[k] != pks[i] && rows[some[k]].createdAt <= rows[pks[i]].createdAt {
      assert some[k] in pks[..i];
    }
  }

  ghost predicate ExpiredFrom(before: Gate, after: Gate) {
    after.decidedAt.Some? && after == Decided(before, Expired, None, after.decidedAt.value)
  }

  ghost function ExpiryEntries(rows: map<string, Gate>, pks: seq<string>): seq<Entry>
    requires forall pk :: pk in pks ==> pk in rows
  {
    if pks == [] then []
    else ExpiryEntries(rows, pks[..|pks| - 1])
         + [DecisionEntry(pks[|pks| - 1], rows[pks[|pks| - 1]], Expired, None, None)]
  }

  lemma ExpiryStep(rows: map<string, Gate>, pks: seq<string>, pk: string)
    requires pk in rows && forall q :: q in pks ==> q in rows
    ensures ExpiryEntries(rows, pks + [pk])
            == ExpiryEntries(rows, pks) + [DecisionEntry(pk, rows[pk], Expired, None, None)]
  {
    assert (pks + [pk])[..|pks|] == pks;
  }

  lemma PendingApprovesNothing(rows: map<string, Gate>, pk: string, g: Gate, c: (string, string, string))
    requires pk !in rows && g.status == Pending
    ensures HumanApproved(rows[pk := g], c) <==> HumanApproved(rows, c)
  {
    if HumanApproved(rows, c) {
      var q :| q in rows && Class(rows[q]) == Some(c)
               && (rows[q].status == Approved || rows[q].status == ModifiedAndApproved);
      assert rows[pk := g][q] == rows[q];
    }
  }

  predicate Due(g: Gate, now: int) {
    g.status == Pending && g.expiresAt.Some? && g.expiresAt.value <= now
  }

  /** The table after the gates in `expired` have expired: no other row has changed. */
  ghost predicate ExpiredSome(before: map<string, Gate>, after: map<string, Gate>, expired: seq<string>) {
    && after.Keys == before.Keys
    && (forall pk :: pk in expired ==> pk in before)
    && forall pk :: pk in before ==>
         if pk in expired then ExpiredFrom(before[pk], after[pk]) else after[pk] == before[pk]
  }

  lemma OneMoreExpired(before: map<string, Gate>, after: map<string, Gate>, expired: seq<string>, pk: string, at: int)
    requires ExpiredSome(before, after, expired) && pk in before && pk !in expired
    ensures ExpiredSome(before, after[pk := Decided(before[pk], Expired, None, at)], expired + [pk])
  {
  }

  /** The due gates of a list, in its order. */
  ghost function DueAmong(rows: map<string, Gate>, pks: seq<string>, now: int): (due: seq<string>)
    requires forall pk :: pk in pks ==> pk in rows
    ensures forall pk :: pk in due <==> pk in pks && Due(rows[pk], now)
  {
    if pks == [] then []
    else
      var init, pk := pks[..|pks| - 1], pks[|pks| - 1];
      DueAmong(rows, init, now) + if Due(rows[pk], now) then [pk] else []
  }

  lemma DueStep(rows: map<string, Gate>, pks: seq<string>, now: int, i: nat)
    requires i < |pks| && forall pk :: pk in pks ==> pk in rows
    ensures DueAmong(rows, pks[..i + 1], now)
            == DueAmong(rows, pks[..i], now) + if Due(rows[pks[i]], now) then [pks[i]] else []
  {
    assert pks[..i + 1][..i] == pks[..i];
  }

  lemma PrefixInOrder(rows: map<string, Gate>, pks: seq<string>, n: nat)
    requires n <= |pks| && NoRepeats(pks) && InCreationOrder(rows, pks)
    ensures NoRepeats(pks[..n]) && InCreationOrder(rows, pks[..n])
  {
  }

  lemma {:induction false} DueInOrder(rows: map<string, Gate>, pks: seq<string>, now: int)
    requires NoRepeats(pks) && InCreationOrder(rows, pks)
    ensures NoRepeats(DueAmong(rows, pks, now)) && InCreationOrder(rows, DueAmong(rows, pks, now))
  {
    if pks != [] {
      var n := |pks| - 1;
      PrefixInOrder(rows, pks, n);
      DueInOrder(rows, pks[..n], now);
      AppendInOrder(rows, pks, n, DueAmong(rows, pks[..n], now));
    }
  }

  lemma NothingLeftDue(before: map<string, Gate>, after: map<string, Gate>, pending: seq<string>, now: int)
    requires forall pk :: pk in pending <==> pk in before && before[pk].status == Pending
    requires ExpiredSome(before, after, DueAmong(before, pending, now))
    ensures forall pk :: pk in DueAmong(before, pending, now) <==> pk in before && Due(before[pk], now)
    ensures forall pk :: pk in after ==> !Due(after[pk], now)
  {
  }

  lemma Overwrite(rows: map<string, Gate>, pk: string, g: Gate, g': Gate)
    ensures rows[pk := g][pk := g'] == rows[pk := g']
  {
  }
}
