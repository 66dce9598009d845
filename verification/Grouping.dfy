/** Grouping a sequence by a number: the accepted elements, group by group, each group in
    the original order.  The elements, their group and the test are all parameters. */
module Grouping {
  /** The accepted elements of one group, in order. */
  ghost function Pick<E>(log: seq<E>, keyOf: E -> nat, hit: E -> bool, key: nat): seq<E> {
    if log == [] then []
    else
      var e := log[|log| - 1];
      Pick(log[..|log| - 1], keyOf, hit, key) + if hit(e) && keyOf(e) == key then [e] else []
  }

  ghost function Picks<E>(log: seq<E>, keyOf: E -> nat, hit: E -> bool): (pick: nat -> seq<E>)
    ensures forall i: nat :: pick(i) == Pick(log, keyOf, hit, i)
  {
    (i: nat) => Pick(log, keyOf, hit, i)
  }

  /** The first `k` of a family of sequences, one after the other. */
  ghost function Concat<E>(pick: nat -> seq<E>, k: nat): seq<E> {
    if k == 0 then [] else Concat(pick, k - 1) + pick(k - 1)
  }

  /** The accepted elements of all groups below `k`, group by group. */
  ghost function Grouped<E>(log: seq<E>, keyOf: E -> nat, hit: E -> bool, k: nat): seq<E> {
    Concat(Picks(log, keyOf, hit), k)
  }

  ghost function Accepted<E>(log: seq<E>, hit: E -> bool): seq<E> {
    if log == [] then []
    else Accepted(log[..|log| - 1], hit) + if hit(log[|log| - 1]) then [log[|log| - 1]] else []
  }

  ghost function Always<E>(): E -> bool {
    e => true
  }

  ghost predicate InGroupOrder<E>(s: seq<E>, keyOf: E -> nat) {
    forall i, j :: 0 <= i < j < |s| ==> keyOf(s[i]) <= keyOf(s[j])
  }

  lemma NextGroup<E>(log: seq<E>, keyOf: E -> nat, hit: E -> bool, k: nat)
    ensures Grouped(log, keyOf, hit, k + 1) == Grouped(log, keyOf, hit, k) + Pick(log, keyOf, hit, k)
  {
  }

  lemma AcceptedOne<E>(e: E, hit: E -> bool)
    ensures Accepted([e], hit) == if hit(e) then [e] else []
  {
    assert [e][..0] == [];
  }

  // ---------- Families of sequences ----------

  lemma {:induction false} EmptyGroups<E>(pick: nat -> seq<E>, low: nat, high: nat)
    requires low <= high && forall i: nat :: low <= i < high ==> pick(i) == []
    ensures Concat(pick, high) == Concat(pick, low)
    decreases high
  {
    if low < high {
      EmptyGroups(pick, low, high - 1);
    }
  }

  lemma {:induction false} SameFamily<E>(pick: nat -> seq<E>, pick': nat -> seq<E>, k: nat)
    requires forall i: nat :: i < k ==> pick(i) == pick'(i)
    ensures Concat(pick, k) == Concat(pick', k)
  {
    if k > 0 {
      SameFamily(pick, pick', k - 1);
    }
  }

  /** Group `i` holds only elements of group `i`. */
  ghost predicate Homed<E(!new)>(pick: nat -> seq<E>, keyOf: E -> nat) {
    forall i: nat, e :: e in pick(i) ==> keyOf(e) == i
  }

  lemma {:induction false} ConcatMembers<E(!new)>(pick: nat -> seq<E>, keyOf: E -> nat, k: nat)
    requires Homed(pick, keyOf)
    ensures forall e :: e in Concat(pick, k) ==> keyOf(e) < k
  {
    if k > 0 {
      ConcatMembers(pick, keyOf, k - 1);
    }
  }

  lemma {:induction false} ConcatSorted<E(!new)>(pick: nat -> seq<E>, keyOf: E -> nat, k: nat)
    requires Homed(pick, keyOf)
    ensures InGroupOrder(Concat(pick, k), keyOf)
  {
    if k > 0 {
      var a, b := Concat(pick, k - 1), pick(k - 1);
      ConcatSorted(pick, keyOf, k - 1);
      ConcatMembers(pick, keyOf, k - 1);
      forall i, j | 0 <= i < j < |a + b| ensures keyOf((a + b)[i]) <= keyOf((a + b)[j]) {
        assert if i < |a| then (a + b)[i] in a else (a + b)[i] in b;
        assert if j < |a| then (a + b)[j] in a else (a + b)[j] in b;
      }
    }
  }

  lemma {:induction false} ConcatCounts<E>(pick: nat -> seq<E>, k: nat, x: E, home: nat, n: nat)
    requires forall i: nat :: multiset(pick(i))[x] == if i == home then n else 0
    ensures multiset(Concat(pick, k))[x] == if home < k then n else 0
  {
    if k > 0 {
      ConcatCounts(pick, k - 1, x, home, n);
    }
  }

  lemma {:induction false} GroupOfConcat<E(!new)>(pick: nat -> seq<E>, keyOf: E -> nat, k: nat, key: nat)
    requires Homed(pick, keyOf)
    ensures Pick(Concat(pick, k), keyOf, Always(), key) == if key < k then pick(key) else []
  {
    if k > 0 {
      GroupOfConcat(pick, keyOf, k - 1, key);
      PickAppend(Concat(pick, k - 1), pick(k - 1), keyOf, Always(), key);
      PickOfOneGroup(pick(k - 1), keyOf, k - 1, key);
    }
  }

  // ---------- One group ----------

  lemma {:induction false} NothingPicked<E>(log: seq<E>, keyOf: E -> nat, hit: E -> bool, key: nat)
    requires forall e :: e in log ==> !hit(e) || keyOf(e) != key
    ensures Pick(log, keyOf, hit, key) == []
  {
    if log != [] {
      assert log[|log| - 1] in log;
      NothingPicked(log[..|log| - 1], keyOf, hit, key);
    }
  }

  lemma {:induction false} SamePick<E>(log: seq<E>, keyOf: E -> nat, hit: E -> bool, hit': E -> bool, key: nat)
    requires forall e :: e in log && keyOf(e) == key ==> hit(e) == hit'(e)
    ensures Pick(log, keyOf, hit, key) == Pick(log, keyOf, hit', key)
  {
    if log != [] {
      assert log[|log| - 1] in log;
      SamePick(log[..|log| - 1], keyOf, hit, hit', key);
    }
  }

  lemma {:induction false} PickAppend<E>(a: seq<E>, b: seq<E>, keyOf: E -> nat, hit: E -> bool, key: nat)
    ensures Pick(a + b, keyOf, hit, key) == Pick(a, keyOf, hit, key) + Pick(b, keyOf, hit, key)
  {
    if b == [] {
      assert a + b == a;
    } else {
      PickAppend(a, b[..|b| - 1], keyOf, hit, key);
      assert (a + b)[..|a + b| - 1] == a + b[..|b| - 1];
    }
  }

  lemma {:induction false} PickOfOneGroup<E>(s: seq<E>, keyOf: E -> nat, home: nat, key: nat)
    requires forall e :: e in s ==> keyOf(e) == home
    ensures Pick(s, keyOf, Always(), key) == if key == home then s else []
  {
    if s != [] {
      assert s[|s| - 1] in s;
      PickOfOneGroup(s[..|s| - 1], keyOf, home, key);
    }
  }

  lemma {:induction false} PickMembers<E>(log: seq<E>, keyOf: E -> nat, hit: E -> bool, key: nat)
    ensures forall e :: e in Pick(log, keyOf, hit, key) ==> keyOf(e) == key && hit(e)
  {
    if log != [] {
      PickMembers(log[..|log| - 1], keyOf, hit, key);
    }
  }

  lemma {:induction false} PickCounts<E>(log: seq<E>, keyOf: E -> nat, hit: E -> bool, key: nat, x: E)
    ensures multiset(Pick(log, keyOf, hit, key))[x] == if keyOf(x) == key then multiset(Accepted(log, hit))[x] else 0
  {
    if log != [] {
      PickCounts(log[..|log| - 1], keyOf, hit, key, x);
    }
  }

  lemma {:induction false} AcceptedMembers<E>(log: seq<E>, hit: E -> bool)
    ensures forall e :: e in Accepted(log, hit) ==> e in log
  {
    if log != [] {
      AcceptedMembers(log[..|log| - 1], hit);
    }
  }

  // ---------- Grouping is a stable sort ----------

  lemma SameGroups<E>(log: seq<E>, keyOf: E -> nat, hit: E -> bool, hit': E -> bool, k: nat)
    requires forall e :: e in log ==> hit(e) == hit'(e)
    ensures Grouped(log, keyOf, hit, k) == Grouped(log, keyOf, hit', k)
  {
    var pick, pick' := Picks(log, keyOf, hit), Picks(log, keyOf, hit');
    forall i: nat | i < k ensures pick(i) == pick'(i) {
      SamePick(log, keyOf, hit, hit', i);
    }
    SameFamily(pick, pick', k);
  }

  lemma PicksHomed<E(!new)>(log: seq<E>, keyOf: E -> nat, hit: E -> bool)
    ensures Homed(Picks(log, keyOf, hit), keyOf)
  {
    forall i: nat, e | e in Picks(log, keyOf, hit)(i) ensures keyOf(e) == i {
      PickMembers(log, keyOf, hit, i);
    }
  }

  lemma SameElements<E(!new)>(log: seq<E>, keyOf: E -> nat, hit: E -> bool, k: nat)
    requires forall e :: e in log ==> keyOf(e) < k
    ensures multiset(Grouped(log, keyOf, hit, k)) == multiset(Accepted(log, hit))
  {
    AcceptedMembers(log, hit);
    var pick := Picks(log, keyOf, hit);
    forall x ensures multiset(Concat(pick, k))[x] == multiset(Accepted(log, hit))[x] {
      forall i: nat ensures multiset(pick(i))[x] == if i == keyOf(x) then multiset(Accepted(log, hit))[x] else 0 {
        PickCounts(log, keyOf, hit, i, x);
      }
      ConcatCounts(pick, k, x, keyOf(x), multiset(Accepted(log, hit))[x]);
      assert x in Accepted(log, hit) ==> x in log;
    }
  }

  /** The accepted elements, each as often as it occurs, sorted by group, and in the original
      order within each group. */
  lemma StableSort<E(!new)>(log: seq<E>, keyOf: E -> nat, hit: E -> bool, k: nat)
    requires forall e :: e in log ==> keyOf(e) < k
    ensures multiset(Grouped(log, keyOf, hit, k)) == multiset(Accepted(log, hit))
    ensures |Grouped(log, keyOf, hit, k)| == |Accepted(log, hit)|
    ensures InGroupOrder(Grouped(log, keyOf, hit, k), keyOf)
    ensures forall key: nat :: key < k ==>
              Pick(Grouped(log, keyOf, hit, k), keyOf, Always(), key) == Pick(log, keyOf, hit, key)
  {
    SameElements(log, keyOf, hit, k);
    assert |multiset(Grouped(log, keyOf, hit, k))| == |multiset(Accepted(log, hit))|;
    PicksHomed(log, keyOf, hit);
    ConcatSorted(Picks(log, keyOf, hit), keyOf, k);
    forall key: nat | key < k
      ensures Pick(Grouped(log, keyOf, hit, k), keyOf, Always(), key) == Pick(log, keyOf, hit, key)
    {
      GroupOfConcat(Picks(log, keyOf, hit), keyOf, k, key);
    }
  }
}
