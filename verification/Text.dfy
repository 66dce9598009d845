/** Strings as sequences of characters: byte order, decimal printing and reading,
    searching, splitting.  Shared by the cron parser, the ISO timestamps, the audit
    file names, the binding resolver and the markdown reader. */
module Text {
  import opened Outcomes

  // ---------- Byte order ----------

  /** SQLite's BINARY collation on ASCII text. */
  predicate Less(s: string, t: string) {
    if t == [] then false
    else if s == [] then true
    else if s[0] != t[0] then s[0] < t[0]
    else Less(s[1..], t[1..])
  }

  predicate AtMost(s: string, t: string) {
    s == t || Less(s, t)
  }

  lemma LessCons(c: char, s: string, d: char, t: string)
    ensures Less([c] + s, [d] + t) <==> c < d || (c == d && Less(s, t))
  {
    assert ([c] + s)[1..] == s && ([d] + t)[1..] == t;
  }

  lemma {:induction false} LessSamePrefix(p: string, s: string, t: string)
    ensures Less(p + s, p + t) <==> Less(s, t)
  {
    if p == [] {
      assert p + s == s && p + t == t;
    } else {
      LessSamePrefix(p[1..], s, t);
      assert p + s == [p[0]] + (p[1..] + s) && p + t == [p[0]] + (p[1..] + t);
      LessCons(p[0], p[1..] + s, p[0], p[1..] + t);
    }
  }

  // ---------- Decimal printing ----------

  function Digit(d: nat): (c: char)
    requires d < 10
    ensures IsDigit(c) && DigitValue(c) == d
  {
    '0' + d as char
  }

  predicate IsDigit(c: char) {
    '0' <= c <= '9'
  }

  function DigitValue(c: char): nat
    requires IsDigit(c)
  {
    (c - '0') as nat
  }

  function Pow10(w: nat): (p: nat)
    ensures p > 0
  {
    if w == 0 then 1 else 10 * Pow10(w - 1)
  }

  /** Zero-padded printing in exactly `w` digits (the `:04d` style of formatting). */
  function Pad(n: nat, w: nat): (s: string)
    ensures |s| == w
  {
    if w == 0 then [] else Pad(n / 10, w - 1) + [Digit(n % 10)]
  }

  lemma {:induction false} PadDigits(n: nat, w: nat)
    ensures forall i :: 0 <= i < w ==> IsDigit(Pad(n, w)[i])
  {
    if w > 0 {
      PadDigits(n / 10, w - 1);
    }
  }

  /** Fixed-width numbers, followed by anything, compare as numbers first. */
  lemma {:induction false} PadOrder(a: nat, b: nat, w: nat, s: string, t: string)
    requires a < Pow10(w) && b < Pow10(w)
    ensures Less(Pad(a, w) + s, Pad(b, w) + t) <==> a < b || (a == b && Less(s, t))
  {
    if w == 0 {
      assert Pad(a, w) + s == s && Pad(b, w) + t == t;
    } else {
      var ca, cb := Digit(a % 10), Digit(b % 10);
      assert Pad(a, w) + s == Pad(a / 10, w - 1) + ([ca] + s);
      assert Pad(b, w) + t == Pad(b / 10, w - 1) + ([cb] + t);
      PadOrder(a / 10, b / 10, w - 1, [ca] + s, [cb] + t);
      LessCons(ca, s, cb, t);
    }
  }

  /** The value of a string of digits. */
  function Undigits(s: string): nat
    requires forall i :: 0 <= i < |s| ==> IsDigit(s[i])
  {
    if s == [] then 0 else 10 * Undigits(s[..|s| - 1]) + DigitValue(s[|s| - 1])
  }

  lemma {:induction false} PadRoundTrip(n: nat, w: nat)
    requires n < Pow10(w)
    ensures forall i :: 0 <= i < w ==> IsDigit(Pad(n, w)[i])
    ensures Undigits(Pad(n, w)) == n
  {
    PadDigits(n, w);
    if w > 0 {
      PadRoundTrip(n / 10, w - 1);
      assert Pad(n, w)[..w - 1] == Pad(n / 10, w - 1);
    }
  }

  /** `str(n)` of a natural number. */
  function Decimal(n: nat): (s: string)
    ensures s != []
    ensures forall i :: 0 <= i < |s| ==> IsDigit(s[i])
  {
    if n < 10 then [Digit(n)] else Decimal(n / 10) + [Digit(n % 10)]
  }

  // ---------- Reading integers as Python's int() does ----------

  /** Python's notion of white space for str.split, str.strip and int. */
  predicate IsSpace(c: char) {
    var k := c as int;
    || 9 <= k <= 13
    || 28 <= k <= 32
    || k == 0x85 || k == 0xA0 || k == 0x1680
    || 0x2000 <= k <= 0x200A
    || k == 0x2028 || k == 0x2029 || k == 0x202F || k == 0x205F || k == 0x3000
  }

  function StripLeft(s: string): string {
    if s != [] && IsSpace(s[0]) then StripLeft(s[1..]) else s
  }

  function StripRight(s: string): string {
    if s != [] && IsSpace(s[|s| - 1]) then StripRight(s[..|s| - 1]) else s
  }

  /** Digits, with single underscores allowed between two digits. */
  function ReadDigits(s: string): Option<nat> {
    if s == [] || !IsDigit(s[|s| - 1]) then None
    else
      var d := DigitValue(s[|s| - 1]);
      var init := s[..|s| - 1];
      if init == [] then Some(d)
      else
        var rest := if init[|init| - 1] == '_' then init[..|init| - 1] else init;
        match ReadDigits(rest)
        case None => None
        case Some(v) => Some(10 * v + d)
  }

  /** `int(s)`; None is Python's ValueError. */
  function ReadInt(s: string): Option<int> {
    var t := StripRight(StripLeft(s));
    if t == [] then None
    else if t[0] == '-' then
      match ReadDigits(t[1..])
      case None => None
      case Some(v) => var n: int := v; Some(0 - n)
    else if t[0] == '+' then ReadDigits(t[1..])
    else ReadDigits(t)
  }

  lemma {:induction false} ReadDigitsOfDecimal(n: nat)
    ensures ReadDigits(Decimal(n)) == Some(n)
  {
    if n >= 10 {
      ReadDigitsOfDecimal(n / 10);
      var s := Decimal(n);
      assert s[..|s| - 1] == Decimal(n / 10);
    }
  }

  /** Reading back what was printed. */
  lemma ReadIntOfDecimal(n: nat)
    ensures ReadInt(Decimal(n)) == Some(n)
  {
    var s := Decimal(n);
    assert IsDigit(s[0]) && IsDigit(s[|s| - 1]);
    assert StripLeft(s) == s && StripRight(s) == s;
    ReadDigitsOfDecimal(n);
  }

  // ---------- Searching ----------

  predicate OccursAt(text: string, pat: string, i: nat) {
    i + |pat| <= |text| && text[i..i + |pat|] == pat
  }

  /** `text.find(pat, start)`: the first occurrence at or after `start`, or -1. */
  function Find(text: string, pat: string, start: nat): (r: int)
    ensures r == -1 || (start <= r && OccursAt(text, pat, r))
    ensures forall j: nat :: start <= j && (r == -1 || j < r) ==> !OccursAt(text, pat, j)
    decreases |text| - start
  {
    if start > |text| then -1
    else if OccursAt(text, pat, start) then start
    else Find(text, pat, start + 1)
  }

  /** No occurrence begins between `lo` and `hi`. */
  ghost predicate Absent(text: string, pat: string, lo: nat, hi: nat) {
    forall j: nat :: lo <= j < hi ==> !OccursAt(text, pat, j)
  }

  lemma FoundFirst(text: string, pat: string, start: nat, at: nat)
    requires start <= at && OccursAt(text, pat, at) && Absent(text, pat, start, at)
    ensures Find(text, pat, start) == at
  {
  }

  lemma OccursBehind(front: string, text: string, pat: string, i: nat)
    ensures OccursAt(front + text, pat, |front| + i) <==> OccursAt(text, pat, i)
  {
    if i + |pat| <= |text| {
      assert (front + text)[|front| + i..|front| + i + |pat|] == text[i..i + |pat|];
    }
  }

  lemma AbsentBehind(front: string, text: string, pat: string, hi: nat)
    requires Absent(text, pat, 0, hi)
    ensures Absent(front + text, pat, |front|, |front| + hi)
  {
    forall j: nat | |front| <= j < |front| + hi ensures !OccursAt(front + text, pat, j) {
      OccursBehind(front, text, pat, j - |front|);
    }
  }

  /** Index of the first `c`, or the length of the text if there is none. */
  function IndexOf(s: string, c: char): (i: nat)
    ensures i <= |s|
    ensures forall j :: 0 <= j < i ==> s[j] != c
    ensures i < |s| ==> s[i] == c
  {
    if s == [] || s[0] == c then 0 else 1 + IndexOf(s[1..], c)
  }

  lemma IndexOfFirst(p: string, c: char, q: string)
    requires c !in p
    ensures IndexOf(p + [c] + q, c) == |p|
  {
    var s := p + [c] + q;
    assert s[|p|] == c;
    assert forall j :: 0 <= j < |p| ==> s[j] == p[j] && p[j] in p;
  }

  // ---------- Splitting and joining ----------

  /** `s.split(sep)` for a one-character separator: never empty. */
  function Split(s: string, sep: char): (parts: seq<string>)
    ensures parts != []
    ensures forall k :: 0 <= k < |parts| ==> sep !in parts[k]
    decreases |s|
  {
    var i := IndexOf(s, sep);
    if i == |s| then [s] else [s[..i]] + Split(s[i + 1..], sep)
  }

  /** `sep.join(parts)`. */
  function Join(parts: seq<string>, sep: char): string {
    if parts == [] then []
    else if |parts| == 1 then parts[0]
    else parts[0] + [sep] + Join(parts[1..], sep)
  }

  lemma {:induction false} SplitOfJoin(parts: seq<string>, sep: char)
    requires parts != []
    requires forall k :: 0 <= k < |parts| ==> sep !in parts[k]
    ensures Split(Join(parts, sep), sep) == parts
  {
    if |parts| == 1 {
      assert IndexOf(parts[0], sep) == |parts[0]|;
    } else {
      var rest := Join(parts[1..], sep);
      SplitOfJoin(parts[1..], sep);
      IndexOfFirst(parts[0], sep, rest);
      var s := Join(parts, sep);
      assert s[..|parts[0]|] == parts[0] && s[|parts[0]| + 1..] == rest;
    }
  }

  /** Length of the leading run of characters that are not white space. */
  function WordLength(s: string): (i: nat)
    ensures i <= |s|
    ensures forall j :: 0 <= j < i ==> !IsSpace(s[j])
    ensures i < |s| ==> IsSpace(s[i])
  {
    if s == [] || IsSpace(s[0]) then 0 else 1 + WordLength(s[1..])
  }

  /** `s.split()`: the maximal runs of characters that are not white space. */
  function Words(s: string): (words: seq<string>)
    ensures forall k :: 0 <= k < |words| ==> words[k] != [] && forall c :: c in words[k] ==> !IsSpace(c)
    decreases |s|
  {
    if s == [] then []
    else if IsSpace(s[0]) then Words(s[1..])
    else
      var i := WordLength(s);
      [s[..i]] + Words(s[i..])
  }

  predicate IsWord(w: string) {
    w != [] && forall c :: c in w ==> !IsSpace(c)
  }

  lemma WordLengthOf(w: string, rest: string)
    requires IsWord(w)
    requires rest == [] || IsSpace(rest[0])
    ensures WordLength(w + rest) == |w|
  {
    var s := w + rest;
    assert forall j :: 0 <= j < |w| ==> s[j] == w[j] && w[j] in w;
    assert rest != [] ==> s[|w|] == rest[0];
  }

  /** The first word, up to the end of the text or the space that follows. */
  lemma FirstWord(w: string, rest: string)
    requires IsWord(w)
    ensures Words(w) == [w]
    ensures Words(w + ([' '] + rest)) == [w] + Words(rest)
  {
    assert w[0] in w;
    WordLengthOf(w, []);
    assert w + [] == w && w[|w|..] == [];
    var tail := [' '] + rest;
    var s := w + tail;
    WordLengthOf(w, tail);
    assert s[0] == w[0] && s[..|w|] == w && s[|w|..] == tail;
    assert tail[1..] == rest;
  }

  lemma {:induction false} WordsOfJoin(words: seq<string>)
    requires forall k :: 0 <= k < |words| ==> IsWord(words[k])
    ensures Words(Join(words, ' ')) == words
  {
    if words != [] {
      var rest := Join(words[1..], ' ');
      FirstWord(words[0], rest);
      if |words| > 1 {
        WordsOfJoin(words[1..]);
        assert Join(words, ' ') == words[0] + ([' '] + rest);
      }
    }
  }
}
