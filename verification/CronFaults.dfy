/** What the cron field parser refuses, and with which error (`_parse_field` of
    ota_core/automation/cron.py). */
module CronFaults {
  import opened Outcomes
  import opened Text
  import opened CronField

  /** The first number of a range that lies outside the limits, walking upwards. */
  ghost predicate FirstBad(lo: int, hi: int, min: int, max: int, v: int) {
    lo <= v <= hi && Outside(v, min, max) && forall w :: lo <= w < v ==> !Outside(w, min, max)
  }

  predicate Outside(v: int, min: int, max: int) {
    v < min || v > max
  }

  lemma OutsideMeans(s: Span, min: int, max: int)
    requires s.lo <= s.hi && min <= max
    ensures FirstOutside(s, min, max).Some? ==> FirstBad(s.lo, s.hi, min, max, FirstOutside(s, min, max).value)
    ensures FirstOutside(s, min, max).None? <==> min <= s.lo && s.hi <= max
  {
  }

  lemma DashSplits(l: string, h: string)
    requires '-' !in l
    ensures var s := l + (['-'] + h);
            IndexOf(s, '-') == |l| < |s| && s[..|l|] == l && s[|l| + 1..] == h && s != "*"
  {
    AroundSeparator(l, '-', h);
    IndexOfFirst(l, '-', h);
    assert (l + (['-'] + h))[|l|] == '-';
  }

  /** A range needs two numbers, the first at most the second. */
  lemma RangeMeans(l: string, h: string, min: int, max: int)
    requires min <= max && '-' !in l
    ensures var s := l + (['-'] + h);
            ReadBase(s, min, max)
            == if ReadInt(l).None? || ReadInt(h).None? then Err(InvalidRange(s))
               else if ReadInt(l).value > ReadInt(h).value then Err(RangeReversed(s))
               else Ok((ReadInt(l).value, ReadInt(h).value))
  {
    DashSplits(l, h);
  }

  /** Without a dash it is `*`, for the limits, or one number. */
  lemma ValueMeans(s: string, min: int, max: int)
    requires min <= max && '-' !in s
    ensures ReadBase(s, min, max)
            == if s == "*" then Ok((min, max))
               else if ReadInt(s).None? then Err(InvalidValue(s)) else Ok((ReadInt(s).value, ReadInt(s).value))
  {
    NoSeparator(s, '-');
  }

  /** After a slash comes a positive number; without one the step is 1. */
  lemma StepMeans(b: string, step: string)
    requires '/' !in b
    ensures ReadStep(b) == Ok((b, 1))
    ensures ReadStep(b + (['/'] + step))
            == if ReadInt(step).None? then Err(InvalidStep(step))
               else if ReadInt(step).value <= 0 then Err(StepNotPositive(ReadInt(step).value))
               else Ok((b, ReadInt(step).value))
  {
    NoSeparator(b, '/');
    StepSplits(b, step);
    assert |b + (['/'] + step)| > |b|;
  }

  /** The step is read first, then the base, then the limits are checked number by number. */
  lemma PartMeans(part: string, min: int, max: int)
    requires min <= max
    ensures match ReadStep(part)
            case Err(e) => PartError(part, min, max) == Some(e)
            case Ok((base, step)) =>
              match ReadBase(base, min, max)
              case Err(e) => PartError(part, min, max) == Some(e)
              case Ok((lo, hi)) =>
                && (PartError(part, min, max) == None <==> min <= lo && hi <= max)
                && (PartError(part, min, max).Some? ==>
                      && PartError(part, min, max).value.OutsideRange?
                      && FirstBad(lo, hi, min, max, PartError(part, min, max).value.value))
                && forall v :: Denotes(part, min, max, v) <==> lo <= v <= hi && (v - lo) % step == 0
  {
    if ReadPart(part, min, max).Ok? {
      OutsideMeans(ReadPart(part, min, max).value, min, max);
    }
  }

  // ---------- Numbers ----------

  predicate DigitsOnly(s: string) {
    s != [] && forall i :: 0 <= i < |s| ==> IsDigit(s[i])
  }

  lemma {:induction false} DigitsRead(s: string)
    requires DigitsOnly(s)
    ensures ReadDigits(s) == Some(Undigits(s))
  {
    var init := s[..|s| - 1];
    if init != [] {
      assert init[|init| - 1] == s[|s| - 2];
      DigitsRead(init);
    }
  }

  /** An underscore may stand between two digits. */
  lemma {:induction false} UnderscoreRead(a: string, b: string)
    requires DigitsOnly(a) && DigitsOnly(b)
    ensures ReadDigits(a + "_" + b) == ReadDigits(a + b)
  {
    var s, t := a + "_" + b, a + b;
    var c := b[..|b| - 1];
    assert s[|s| - 1] == t[|t| - 1] == b[|b| - 1];
    assert s[..|s| - 1] == a + "_" + c && t[..|t| - 1] == a + c;
    if c == [] {
      assert a + "_" + c == a + "_" && a + c == a;
      assert (a + "_")[..|a|] == a;
      assert a[|a| - 1] != '_';
    } else {
      assert (a + "_" + c)[|a + "_" + c| - 1] == c[|c| - 1] && (a + c)[|a + c| - 1] == c[|c| - 1];
      assert c[|c| - 1] == b[|b| - 2];
      UnderscoreRead(a, c);
    }
  }

  /** At either end, or next to another, it may not. */
  lemma UnderscoreRefused(a: string)
    ensures ReadDigits(a + "_") == None && ReadDigits("_") == None
  {
    assert (a + "_")[|a|] == '_';
  }

  lemma TrimmedDigits(s: string)
    requires s != [] && !IsSpace(s[0]) && !IsSpace(s[|s| - 1])
    ensures StripRight(StripLeft(s)) == s
  {
  }

  /** A sign may precede the digits. */
  lemma SignsRead(s: string)
    requires DigitsOnly(s)
    ensures ReadInt(s) == Some(Undigits(s))
    ensures ReadInt("+" + s) == Some(Undigits(s))
    ensures ReadInt("-" + s) == Some(0 - (Undigits(s) as int))
    ensures ReadInt("") == None
  {
    DigitsRead(s);
    assert !IsSpace(s[0]) && !IsSpace(s[|s| - 1]);
    TrimmedDigits(s);
    TrimmedDigits("+" + s);
    TrimmedDigits("-" + s);
    assert ("+" + s)[1..] == s && ("-" + s)[1..] == s;
  }

  /** White space around a number is ignored. */
  lemma SpaceIgnored(c: char, s: string)
    requires IsSpace(c)
    ensures ReadInt([c] + s) == ReadInt(s)
  {
    assert ([c] + s)[1..] == s;
  }

  lemma {:induction false} SpaceBehindIgnored(s: string, c: char)
    requires IsSpace(c)
    ensures ReadInt(s + [c]) == ReadInt(s)
  {
    StripLeftBehind(s, c);
    var t := StripLeft(s);
    assert t != [] ==> (t + [c])[..|t|] == t;
  }

  lemma {:induction false} StripLeftBehind(s: string, c: char)
    requires IsSpace(c)
    ensures StripLeft(s + [c]) == if StripLeft(s) == [] then [] else StripLeft(s) + [c]
  {
    if s == [] {
      assert s + [c] == [c] && [c][1..] == [];
    } else {
      assert (s + [c])[0] == s[0] && (s + [c])[1..] == s[1..] + [c];
      if IsSpace(s[0]) {
        StripLeftBehind(s[1..], c);
      }
    }
  }
}
