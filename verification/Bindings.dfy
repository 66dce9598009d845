/** Binding resolution (ota_connect/binding/resolver.py): a scan of the bound keys, longest
    first, against the walk that drops one trailing segment at a time. */
module Bindings {
  import opened Outcomes
  import opened Text
  import Sorting

  /** A dict from capability or capability.verb to adapter id: its keys in order, its values. */
  datatype Bindings = Bindings(order: seq<string>, adapters: map<string, string>)

  ghost predicate WellFormed(b: Bindings) {
    && (forall k :: k in b.order <==> k in b.adapters)
    && Sorting.NoRepeats(b.order)
  }

  datatype Resolved = Resolved(capability: string, verb: string, adapterId: string, matchedKey: string)

  predicate StartsWith(s: string, p: string) {
    |p| <= |s| && s[..|p|] == p
  }

  function Target(capability: string, verb: string): string {
    capability + "." + verb
  }

  /** `p` is `s` with some trailing dotted segments dropped. */
  predicate DottedPrefix(p: string, s: string) {
    p == s || StartsWith(s, p + ".")
  }

  // ---------- The resolver ----------

  /** The sort key of the constructor: longer keys first, then by text. */
  predicate Before(a: string, b: string) {
    |a| > |b| || (|a| == |b| && AtMost(a, b))
  }

  function Sorted(keys: seq<string>): (r: seq<string>)
    ensures forall k :: k in r <==> k in keys
  {
    Sorting.Sort(Before, keys)
  }

  /** The scan, with both tests of its body. */
  function Scan(keys: seq<string>, b: Bindings, capability: string, verb: string): Option<Resolved>
    requires forall k :: k in keys ==> k in b.adapters
  {
    if keys == [] then None
    else
      var key := keys[0];
      assert key in keys;
      if key == Target(capability, verb) || StartsWith(Target(capability, verb), key + ".") then
        Some(Resolved(capability, verb, b.adapters[key], key))
      else if key == capability then
        Some(Resolved(capability, verb, b.adapters[key], key))
      else
        Scan(keys[1..], b, capability, verb)
  }

  function Resolve(b: Bindings, capability: string, verb: string): Option<Resolved>
    requires WellFormed(b)
  {
    Scan(Sorted(b.order), b, capability, verb)
  }

  // ---------- The sorted keys ----------

  ghost predicate LongestFirst(keys: seq<string>) {
    forall i, j :: 0 <= i < j < |keys| ==> |keys[i]| >= |keys[j]|
  }

  lemma SortedLongestFirst(keys: seq<string>)
    ensures LongestFirst(Sorted(keys))
  {
    var rank := (k: string) => -|k|;
    Sorting.SortOrdered(Before, rank, keys);
    var r := Sorted(keys);
    forall i, j | 0 <= i < j < |r| ensures |r[i]| >= |r[j]| {
      assert rank(r[i]) <= rank(r[j]);
    }
  }

  // ---------- Dotted prefixes ----------

  lemma PrefixesOfOneText(p: string, q: string, s: string)
    requires DottedPrefix(p, s) && DottedPrefix(q, s) && |p| == |q|
    ensures p == q
  {
    assert p == s[..|p|] && q == s[..|q|];
  }

  lemma CapabilityIsPrefix(capability: string, verb: string)
    ensures DottedPrefix(capability, Target(capability, verb))
    ensures StartsWith(Target(capability, verb), capability + ".")
  {
  }

  /** The second test of the scan never decides: whenever it holds, so does the first. */
  lemma SecondTestNeverDecides(key: string, capability: string, verb: string)
    ensures key == capability ==>
              key == Target(capability, verb) || StartsWith(Target(capability, verb), key + ".")
  {
    CapabilityIsPrefix(capability, verb);
  }

  lemma PrefixTransitive(p: string, q: string, s: string)
    requires DottedPrefix(p, q) && DottedPrefix(q, s)
    ensures DottedPrefix(p, s)
  {
    if p != q && q != s {
      assert s[..|q|] == q;
      assert s[..|p| + 1] == q[..|p| + 1];
    }
  }

  /** Of two dotted prefixes the shorter is a dotted prefix of the longer. */
  lemma PrefixesNest(p: string, q: string, s: string)
    requires DottedPrefix(p, s) && DottedPrefix(q, s) && |p| <= |q|
    ensures DottedPrefix(p, q)
  {
    assert p == s[..|p|] && q == s[..|q|];
    if |p| < |q| {
      assert s[..|p| + 1] == p + ".";
      assert q[..|p| + 1] == s[..|p| + 1];
    }
  }

  // ---------- The longest bound prefix ----------

  /** `key` is the longest bound dotted prefix of `s`; there is at most one. */
  ghost predicate LongestBound(key: string, b: Bindings, s: string) {
    && key in b.adapters && DottedPrefix(key, s)
    && forall k :: k in b.adapters && DottedPrefix(k, s) ==> |k| <= |key|
  }

  lemma LongestUnique(k: string, l: string, b: Bindings, s: string)
    requires LongestBound(k, b, s) && LongestBound(l, b, s)
    ensures k == l
  {
    PrefixesOfOneText(k, l, s);
  }

  /** What a scan of any list of keys, longest first, finds. */
  lemma {:induction false} ScanFinds(keys: seq<string>, b: Bindings, capability: string, verb: string)
    requires forall k :: k in keys ==> k in b.adapters
    requires LongestFirst(keys)
    ensures var r := Scan(keys, b, capability, verb);
            var target := Target(capability, verb);
            && (r.None? <==> forall k :: k in keys ==> !DottedPrefix(k, target))
            && (r.Some? ==> var key := r.value.matchedKey;
                  && key in keys && DottedPrefix(key, target)
                  && r == Some(Resolved(capability, verb, b.adapters[key], key))
                  && forall k :: k in keys && DottedPrefix(k, target) ==> |k| <= |key|)
  {
    if keys != [] {
      var target := Target(capability, verb);
      SecondTestNeverDecides(keys[0], capability, verb);
      assert keys == [keys[0]] + keys[1..];
      if DottedPrefix(keys[0], target) {
        forall k | k in keys ensures |k| <= |keys[0]| {
        }
      } else {
        ScanFinds(keys[1..], b, capability, verb);
      }
    }
  }

  /** `resolve` answers with the longest bound dotted prefix, and fails iff none is bound. */
  lemma ResolveIsLongest(b: Bindings, capability: string, verb: string)
    requires WellFormed(b)
    ensures var r := Resolve(b, capability, verb);
            var target := Target(capability, verb);
            && (r.Some? <==> exists k :: k in b.adapters && DottedPrefix(k, target))
            && (r.Some? ==>
                  && LongestBound(r.value.matchedKey, b, target)
                  && r.value == Resolved(capability, verb, b.adapters[r.value.matchedKey], r.value.matchedKey))
  {
    SortedLongestFirst(b.order);
    ScanFinds(Sorted(b.order), b, capability, verb);
  }

  /** The answer does not depend on how keys of equal length are ordered. */
  lemma TieBreakIrrelevant(b: Bindings, keys: seq<string>, capability: string, verb: string)
    requires WellFormed(b) && LongestFirst(keys) && forall k :: k in keys <==> k in b.adapters
    ensures Scan(keys, b, capability, verb) == Resolve(b, capability, verb)
  {
    ResolveIsLongest(b, capability, verb);
    ScanFinds(keys, b, capability, verb);
    var r, r' := Scan(keys, b, capability, verb), Resolve(b, capability, verb);
    if r.Some? && r'.Some? {
      LongestUnique(r.value.matchedKey, r'.value.matchedKey, b, Target(capability, verb));
    }
  }

  // ---------- The walk over segments ----------

  /** The position of the last dot, or -1. */
  function LastDot(s: string): (i: int)
    ensures -1 <= i < |s|
    ensures i >= 0 ==> s[i] == '.'
    ensures forall j :: i < j < |s| ==> s[j] != '.'
  {
    if s == [] then -1
    else if s[|s| - 1] == '.' then |s| - 1
    else LastDot(s[..|s| - 1])
  }

  /** Look the text up; without success, drop its last segment and try again. */
  function Walk(b: Bindings, s: string): Option<string>
    decreases |s|
  {
    if s in b.adapters then Some(s)
    else if LastDot(s) < 0 then None
    else Walk(b, s[..LastDot(s)])
  }

  lemma DropSegment(p: string, s: string)
    requires p != s
    ensures DottedPrefix(p, s) <==> LastDot(s) >= 0 && DottedPrefix(p, s[..LastDot(s)])
  {
    var i := LastDot(s);
    if i >= 0 {
      assert s[..i] + "." == s[..i + 1];
      if DottedPrefix(p, s[..i]) {
        PrefixTransitive(p, s[..i], s);
      }
    }
    if DottedPrefix(p, s) {
      assert s[|p|] == (p + ".")[|p|] == '.';
      PrefixesNest(p, s[..i], s);
    }
  }

  lemma {:induction false} WalkFindsLongest(b: Bindings, s: string)
    ensures Walk(b, s).Some? <==> exists k :: k in b.adapters && DottedPrefix(k, s)
    ensures Walk(b, s).Some? ==> LongestBound(Walk(b, s).value, b, s)
    decreases |s|
  {
    if s !in b.adapters {
      forall k | k in b.adapters
        ensures DottedPrefix(k, s) <==> LastDot(s) >= 0 && DottedPrefix(k, s[..LastDot(s)])
      {
        DropSegment(k, s);
      }
      if LastDot(s) >= 0 {
        WalkFindsLongest(b, s[..LastDot(s)]);
      }
    }
  }

  /** The sorted scan and the segment walk agree. */
  lemma ResolveIsWalk(b: Bindings, capability: string, verb: string)
    requires WellFormed(b)
    ensures var r := Resolve(b, capability, verb);
            Walk(b, Target(capability, verb)) == if r.Some? then Some(r.value.matchedKey) else None
  {
    var target := Target(capability, verb);
    ResolveIsLongest(b, capability, verb);
    WalkFindsLongest(b, target);
    var r, w := Resolve(b, capability, verb), Walk(b, target);
    if r.Some? && w.Some? {
      LongestUnique(r.value.matchedKey, w.value, b, target);
    }
  }
}
