/** A stable insertion sort by a comparison, and what it guarantees for a rank that the
    comparison respects. */
module Sorting {

  function Insert<T(!new)>(before: (T, T) -> bool, x: T, s: seq<T>): (r: seq<T>)
    ensures forall y :: y in r <==> y == x || y in s
    ensures |r| == |s| + 1
  {
    if s == [] || before(x, s[0]) then [x] + s else [s[0]] + Insert(before, x, s[1..])
  }

  function Sort<T(!new)>(before: (T, T) -> bool, s: seq<T>): (r: seq<T>)
    ensures forall y :: y in r <==> y in s
    ensures |r| == |s|
  {
    if s == [] then [] else Insert(before, s[0], Sort(before, s[1..]))
  }

  predicate NoRepeats<T(==)>(s: seq<T>) {
    forall i, j :: 0 <= i < j < |s| ==> s[i] != s[j]
  }

  ghost predicate Ordered<T>(rank: T -> int, s: seq<T>) {
    forall i, j :: 0 <= i < j < |s| ==> rank(s[i]) <= rank(s[j])
  }

  /** The comparison of the two does not contradict their ranks. */
  ghost predicate Respects<T>(before: (T, T) -> bool, rank: T -> int, x: T, y: T) {
    if before(x, y) then rank(x) <= rank(y) else rank(y) <= rank(x)
  }

  ghost predicate AllRespect<T(!new)>(before: (T, T) -> bool, rank: T -> int, s: seq<T>) {
    forall x, y :: x in s && y in s ==> Respects(before, rank, x, y)
  }

  lemma ConsOrdered<T>(rank: T -> int, x: T, s: seq<T>)
    requires Ordered(rank, s) && forall y :: y in s ==> rank(x) <= rank(y)
    ensures Ordered(rank, [x] + s)
  {
  }

  lemma FirstLeast<T>(rank: T -> int, s: seq<T>)
    requires s != [] && Ordered(rank, s)
    ensures Ordered(rank, s[1..]) && forall y :: y in s ==> rank(s[0]) <= rank(y)
  {
  }

  lemma {:induction false} InsertOrdered<T(!new)>(before: (T, T) -> bool, rank: T -> int, x: T, s: seq<T>)
    requires Ordered(rank, s) && forall y :: y in s ==> Respects(before, rank, x, y)
    ensures Ordered(rank, Insert(before, x, s))
  {
    if s != [] {
      FirstLeast(rank, s);
      assert Respects(before, rank, x, s[0]);
      if before(x, s[0]) {
        ConsOrdered(rank, x, s);
      } else {
        InsertOrdered(before, rank, x, s[1..]);
        ConsOrdered(rank, s[0], Insert(before, x, s[1..]));
      }
    }
  }

  lemma {:induction false} SortOrdered<T(!new)>(before: (T, T) -> bool, rank: T -> int, s: seq<T>)
    requires AllRespect(before, rank, s)
    ensures Ordered(rank, Sort(before, s))
  {
    if s != [] {
      SortOrdered(before, rank, s[1..]);
      InsertOrdered(before, rank, s[0], Sort(before, s[1..]));
    }
  }

  lemma ConsNoRepeats<T>(x: T, s: seq<T>)
    requires NoRepeats(s) && x !in s
    ensures NoRepeats([x] + s)
  {
  }

  lemma {:induction false} InsertNoRepeats<T(!new)>(before: (T, T) -> bool, x: T, s: seq<T>)
    requires NoRepeats(s) && x !in s
    ensures NoRepeats(Insert(before, x, s))
  {
    if s == [] || before(x, s[0]) {
      ConsNoRepeats(x, s);
    } else {
      InsertNoRepeats(before, x, s[1..]);
      assert s[0] !in s[1..];
      ConsNoRepeats(s[0], Insert(before, x, s[1..]));
    }
  }

  lemma {:induction false} SortNoRepeats<T(!new)>(before: (T, T) -> bool, s: seq<T>)
    requires NoRepeats(s)
    ensures NoRepeats(Sort(before, s))
  {
    if s != [] {
      SortNoRepeats(before, s[1..]);
      assert s[0] !in s[1..];
      InsertNoRepeats(before, s[0], Sort(before, s[1..]));
    }
  }
}
