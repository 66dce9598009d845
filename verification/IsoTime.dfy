/** `datetime.isoformat()` of UTC instants, and why comparing the texts compares the
    instants although the fraction is printed with six digits or not at all. */
module IsoTime {
  import opened Text
  import opened Calendar

  function SecondField(t: Instant): int { t % MICROS_PER_MINUTE / 1_000_000 }
  function MicroField(t: Instant): int { t % 1_000_000 }

  const OFFSET := "+00:00"

  /** The fraction, left out when it is zero, and the UTC offset. */
  function Tail(micro: nat): string {
    if micro == 0 then OFFSET else "." + Pad(micro, 6) + OFFSET
  }

  /** Year, month, day, hour, minute and second. */
  function Fields(t: Instant): (fields: seq<nat>)
    ensures |fields| == 6
  {
    var m, d := MinuteOf(t), DateAt(t);
    [d.year, d.month, d.day, HourField(m), MinuteField(m), SecondField(t)]
  }

  function Width(i: nat): nat {
    if i == 0 then 4 else 2
  }

  function Separator(i: nat): string {
    if i < 2 then "-" else if i == 2 then "T" else if i < 5 then ":" else ""
  }

  /** The fields from number `i` on, each in its width, then the tail. */
  function Render(fields: seq<nat>, i: nat, tail: string): string
    requires |fields| == 6 && i <= 6
    decreases 6 - i
  {
    if i == 6 then tail else Pad(fields[i], Width(i)) + (Separator(i) + Render(fields, i + 1, tail))
  }

  function Iso(t: Instant): string {
    Render(Fields(t), 0, Tail(MicroField(t)))
  }

  /** The whole text: date, "T", time, the fraction of six digits unless it is zero, and the
      UTC offset. */
  lemma IsoShape(t: Instant)
    ensures var (d, m) := (DateAt(t), MinuteOf(t));
            Iso(t) == Pad(d.year, 4) + ("-" + (Pad(d.month, 2) + ("-" + (Pad(d.day, 2)
                      + ("T" + (Pad(HourField(m), 2) + (":" + (Pad(MinuteField(m), 2) + (":" + (Pad(SecondField(t), 2)
                      + ("" + (if MicroField(t) == 0 then "+00:00"
                               else "." + Pad(MicroField(t), 6) + "+00:00"))))))))))))
  {
    var f, tail := Fields(t), Tail(MicroField(t));
    assert Render(f, 5, tail) == Pad(f[5], 2) + ("" + Render(f, 6, tail));
    assert Render(f, 4, tail) == Pad(f[4], 2) + (":" + Render(f, 5, tail));
    assert Render(f, 3, tail) == Pad(f[3], 2) + (":" + Render(f, 4, tail));
    assert Render(f, 2, tail) == Pad(f[2], 2) + ("T" + Render(f, 3, tail));
    assert Render(f, 1, tail) == Pad(f[1], 2) + ("-" + Render(f, 2, tail));
  }

  // ---------- Text order ----------

  lemma Powers()
    ensures Pow10(2) == 100 && Pow10(4) == 10_000 && Pow10(6) == 1_000_000
  {
    assert Pow10(3) == 1000 && Pow10(5) == 100_000;
  }

  lemma FractionOrder(a: nat, b: nat)
    requires 0 < a < 1_000_000 && 0 < b < 1_000_000
    ensures Less(Tail(a), Tail(b)) <==> a < b
  {
    Powers();
    LessSamePrefix(".", Pad(a, 6) + OFFSET, Pad(b, 6) + OFFSET);
    assert Tail(a) == "." + (Pad(a, 6) + OFFSET) && Tail(b) == "." + (Pad(b, 6) + OFFSET);
    PadOrder(a, b, 6, OFFSET, OFFSET);
    LessSamePrefix(OFFSET, [], []);
  }

  lemma FirstCharOrder(s: string, t: string)
    requires s != [] && t != [] && s[0] < t[0]
    ensures Less(s, t) && !Less(t, s)
  {
  }

  lemma TailOrder(a: nat, b: nat)
    requires a < 1_000_000 && b < 1_000_000
    ensures Less(Tail(a), Tail(b)) <==> a < b
  {
    if a > 0 && b > 0 {
      FractionOrder(a, b);
    } else if b > 0 {
      FirstCharOrder(Tail(a), Tail(b));
    } else if a > 0 {
      FirstCharOrder(Tail(b), Tail(a));
    } else {
      LessSamePrefix(OFFSET, [], []);
      assert OFFSET + [] == OFFSET;
    }
  }

  ghost predicate LexLess(a: seq<nat>, b: seq<nat>, i: nat)
    requires |a| == |b| == 6
    decreases 6 - i
  {
    i < 6 && (a[i] < b[i] || (a[i] == b[i] && LexLess(a, b, i + 1)))
  }

  ghost predicate SameFrom(a: seq<nat>, b: seq<nat>, i: nat)
    requires |a| == |b| == 6
  {
    forall j :: i <= j < 6 ==> a[j] == b[j]
  }

  /** Rendered fields compare as the fields do, and then as what follows them. */
  lemma {:induction false} RenderOrder(a: seq<nat>, b: seq<nat>, i: nat, s: string, t: string)
    requires |a| == |b| == 6 && i <= 6
    requires forall j :: 0 <= j < 6 ==> a[j] < Pow10(Width(j)) && b[j] < Pow10(Width(j))
    ensures Less(Render(a, i, s), Render(b, i, t)) <==> LexLess(a, b, i) || (SameFrom(a, b, i) && Less(s, t))
    decreases 6 - i
  {
    if i < 6 {
      var u, v := Render(a, i + 1, s), Render(b, i + 1, t);
      PadOrder(a[i], b[i], Width(i), Separator(i) + u, Separator(i) + v);
      LessSamePrefix(Separator(i), u, v);
      RenderOrder(a, b, i + 1, s, t);
      assert SameFrom(a, b, i) <==> a[i] == b[i] && SameFrom(a, b, i + 1);
    }
  }

  // ---------- Time order ----------

  lemma HoursThenMinutes(m: nat, n: nat)
    requires m / 1440 == n / 1440
    ensures m < n <==> HourField(m) < HourField(n)
                       || (HourField(m) == HourField(n) && MinuteField(m) < MinuteField(n))
  {
    assert HourField(m) == m / 60 - 24 * (m / 1440);
    assert HourField(n) == n / 60 - 24 * (n / 1440);
  }

  lemma SecondsThenMicros(a: nat, b: nat)
    ensures a < b <==> a / 1_000_000 < b / 1_000_000
                       || (a / 1_000_000 == b / 1_000_000 && a % 1_000_000 < b % 1_000_000)
  {
  }

  lemma MinuteThenRest(s: Instant, t: Instant)
    ensures s < t <==> MinuteOf(s) < MinuteOf(t)
                       || (MinuteOf(s) == MinuteOf(t) && s % MICROS_PER_MINUTE < t % MICROS_PER_MINUTE)
  {
  }

  lemma Remainder(k: nat, r: nat)
    requires r < 1_000_000
    ensures (k * 1_000_000 + r) % 1_000_000 == r
  {
  }

  lemma MicroWithinMinute(t: Instant)
    ensures MicroField(t) == t % MICROS_PER_MINUTE % 1_000_000
  {
    var q, a := t / MICROS_PER_MINUTE, t % MICROS_PER_MINUTE;
    var k, r := 60 * q + a / 1_000_000, a % 1_000_000;
    assert t == k * 1_000_000 + r;
    Remainder(k, r);
  }

  lemma WithinMinute(s: Instant, t: Instant)
    ensures s < t <==>
            MinuteOf(s) < MinuteOf(t)
            || (MinuteOf(s) == MinuteOf(t)
                && (SecondField(s) < SecondField(t)
                    || (SecondField(s) == SecondField(t) && MicroField(s) < MicroField(t))))
  {
    MinuteThenRest(s, t);
    MicroWithinMinute(s);
    MicroWithinMinute(t);
    SecondsThenMicros(s % MICROS_PER_MINUTE, t % MICROS_PER_MINUTE);
  }

  /** The fields of two minutes, date first, are ordered as the minutes are. */
  lemma MinutesInOrder(m: nat, n: nat)
    ensures m < n <==>
            DateLess(DateOf(DayOfMinute(m)), DateOf(DayOfMinute(n)))
            || (DateOf(DayOfMinute(m)) == DateOf(DayOfMinute(n))
                && (HourField(m) < HourField(n)
                    || (HourField(m) == HourField(n) && MinuteField(m) < MinuteField(n))))
    ensures m == n <==> DateOf(DayOfMinute(m)) == DateOf(DayOfMinute(n))
                        && HourField(m) == HourField(n) && MinuteField(m) == MinuteField(n)
  {
    DatesInOrder(DayOfMinute(m), DayOfMinute(n));
    if DayOfMinute(m) == DayOfMinute(n) {
      HoursThenMinutes(m, n);
      HoursThenMinutes(n, m);
    }
  }

  lemma LexUnrolled(a: seq<nat>, b: seq<nat>)
    requires |a| == |b| == 6
    ensures LexLess(a, b, 0) <==>
            DateLess(Date(a[0], a[1], a[2]), Date(b[0], b[1], b[2]))
            || (a[..3] == b[..3]
                && (a[3] < b[3] || (a[3] == b[3] && (a[4] < b[4] || (a[4] == b[4] && a[5] < b[5])))))
  {
    assert a[..3] == [a[0], a[1], a[2]] && b[..3] == [b[0], b[1], b[2]];
    assert LexLess(a, b, 3) <==> a[3] < b[3] || (a[3] == b[3] && LexLess(a, b, 4));
    assert LexLess(a, b, 5) <==> a[5] < b[5] by {
      assert !LexLess(a, b, 6);
    }
  }

  lemma FieldsInOrder(s: Instant, t: Instant)
    ensures s < t <==> LexLess(Fields(s), Fields(t), 0) || (Fields(s) == Fields(t) && MicroField(s) < MicroField(t))
  {
    var a, b := Fields(s), Fields(t);
    LexUnrolled(a, b);
    MinutesInOrder(MinuteOf(s), MinuteOf(t));
    WithinMinute(s, t);
    assert a[..3] == [a[0], a[1], a[2]] && b[..3] == [b[0], b[1], b[2]];
    assert a == [a[0], a[1], a[2], a[3], a[4], a[5]] && b == [b[0], b[1], b[2], b[3], b[4], b[5]];
  }

  lemma FieldsFit(t: Instant, j: nat)
    requires j < 6
    ensures Fields(t)[j] < Pow10(Width(j))
  {
    Powers();
    YearInRange(t);
  }

  /** Text order is time order. */
  lemma IsoOrder(s: Instant, t: Instant)
    ensures Less(Iso(s), Iso(t)) <==> s < t
  {
    var a, b := Fields(s), Fields(t);
    forall j | 0 <= j < 6 ensures a[j] < Pow10(Width(j)) && b[j] < Pow10(Width(j)) {
      FieldsFit(s, j);
      FieldsFit(t, j);
    }
    RenderOrder(a, b, 0, Tail(MicroField(s)), Tail(MicroField(t)));
    TailOrder(MicroField(s), MicroField(t));
    FieldsInOrder(s, t);
    assert SameFrom(a, b, 0) <==> a == b;
  }

  lemma OrderedTexts(a: string, b: string, s: int, t: int)
    requires (Less(a, b) <==> s < t) && (Less(b, a) <==> t < s) && (s == t ==> a == b)
    ensures AtMost(a, b) <==> s <= t
    ensures a == b ==> s == t
  {
  }

  /** What `next_fire_at <= ?` and `decided_at >= ?` select. */
  lemma IsoAtMost(s: Instant, t: Instant)
    ensures AtMost(Iso(s), Iso(t)) <==> s <= t
  {
    IsoOrder(s, t);
    IsoOrder(t, s);
    OrderedTexts(Iso(s), Iso(t), s, t);
  }

  /** Different instants print differently. */
  lemma IsoInjective(s: Instant, t: Instant)
    requires Iso(s) == Iso(t)
    ensures s == t
  {
    IsoOrder(s, t);
    IsoOrder(t, s);
    OrderedTexts(Iso(s), Iso(t), s, t);
  }
}
