/** Cron expressions (ota_core/automation/cron.py): five fields, all of which must
    match (day and weekday are conjoined, 0 is Monday), and the bounded sweep for the
    next matching minute. */
module Cron {
  import opened Outcomes
  import opened Text
  import opened Calendar
  import opened CronField

  datatype Expr = Expr(minutes: set<int>, hours: set<int>, days: set<int>, months: set<int>, weekdays: set<int>)

  function FieldOf(e: Expr, i: nat): set<int>
    requires i < 5
  {
    if i == 0 then e.minutes else if i == 1 then e.hours else if i == 2 then e.days
    else if i == 3 then e.months else e.weekdays
  }

  /** The smallest number a field may hold. */
  function Low(i: nat): nat
    requires i < 5
  {
    if i == 2 || i == 3 then 1 else 0
  }

  /** The largest number a field may hold. */
  function High(i: nat): nat
    requires i < 5
  {
    if i == 0 then 59 else if i == 1 then 23 else if i == 2 then 31 else if i == 3 then 12 else 6
  }

  ghost predicate FieldValid(values: set<int>, lo: int, hi: int) {
    values != {} && forall v :: v in values ==> lo <= v <= hi
  }

  /** Every field is non-empty and inside its range. */
  ghost predicate Valid(e: Expr) {
    forall i :: 0 <= i < 5 ==> FieldValid(FieldOf(e, i), Low(i), High(i))
  }

  lemma ValidFields(e: Expr)
    requires Valid(e)
    ensures FieldValid(e.minutes, 0, 59) && FieldValid(e.hours, 0, 23) && FieldValid(e.days, 1, 31)
    ensures FieldValid(e.months, 1, 12) && FieldValid(e.weekdays, 0, 6)
  {
    assert FieldValid(FieldOf(e, 0), Low(0), High(0)) && FieldValid(FieldOf(e, 1), Low(1), High(1));
    assert FieldValid(FieldOf(e, 2), Low(2), High(2)) && FieldValid(FieldOf(e, 3), Low(3), High(3));
    assert FieldValid(FieldOf(e, 4), Low(4), High(4));
  }

  // ---------- Reading ----------

  datatype ParseError = WrongFieldCount(count: nat) | BadField(index: nat, fault: FieldError)

  ghost predicate FieldReads(word: string, i: nat, r: Result<set<int>, FieldError>)
    requires i < 5
  {
    IsOutcome(word, Low(i), High(i), r)
  }

  ghost predicate FieldSound(word: string, i: nat)
    requires i < 5
  {
    exists values :: FieldReads(word, i, Ok(values))
  }

  /** Five words, each read in its own range; the first fault is reported. */
  ghost predicate IsParse(text: string, r: Result<Expr, ParseError>) {
    var words := Words(text);
    match r
    case Ok(e) => |words| == 5 && forall i :: 0 <= i < 5 ==> FieldReads(words[i], i, Ok(FieldOf(e, i)))
    case Err(WrongFieldCount(n)) => n == |words| != 5
    case Err(BadField(i, fault)) =>
      |words| == 5 && i < 5 && FieldReads(words[i], i, Err(fault)) && forall j :: 0 <= j < i ==> FieldSound(words[j], j)
  }

  method Parse(text: string) returns (r: Result<Expr, ParseError>)
    ensures IsParse(text, r)
  {
    var words := Words(text);
    if |words| != 5 {
      return Err(WrongFieldCount(|words|));
    }
    var fields: seq<set<int>> := [];
    for i := 0 to 5
      invariant |fields| == i
      invariant forall j :: 0 <= j < i ==> FieldReads(words[j], j, Ok(fields[j])) && FieldSound(words[j], j)
    {
      var field := ParseField(words[i], Low(i), High(i));
      if field.Err? {
        return Err(BadField(i, field.error));
      }
      assert FieldSound(words[i], i);
      fields := fields + [field.value];
    }
    var e := Expr(fields[0], fields[1], fields[2], fields[3], fields[4]);
    assert forall j :: 0 <= j < 5 ==> FieldOf(e, j) == fields[j];
    return Ok(e);
  }

  lemma ParsedIsValid(text: string, e: Expr)
    requires IsParse(text, Ok(e))
    ensures Valid(e)
  {
    forall i | 0 <= i < 5 ensures FieldValid(FieldOf(e, i), Low(i), High(i)) {
      OutcomeInRange(Words(text)[i], Low(i), High(i), Ok(FieldOf(e, i)));
    }
  }

  lemma SameFields(e: Expr, f: Expr)
    requires forall i :: 0 <= i < 5 ==> FieldOf(e, i) == FieldOf(f, i)
    ensures e == f
  {
    assert e.minutes == FieldOf(e, 0) && e.hours == FieldOf(e, 1) && e.days == FieldOf(e, 2)
           && e.months == FieldOf(e, 3) && e.weekdays == FieldOf(e, 4);
    assert FieldOf(f, 0) == f.minutes && FieldOf(f, 1) == f.hours && FieldOf(f, 2) == f.days
           && FieldOf(f, 3) == f.months && FieldOf(f, 4) == f.weekdays;
  }

  /** A text means one expression. */
  lemma ParseUnique(text: string, e: Expr, f: Expr)
    requires IsParse(text, Ok(e)) && IsParse(text, Ok(f))
    ensures e == f
  {
    forall i | 0 <= i < 5 ensures FieldOf(e, i) == FieldOf(f, i) {
      OutcomeUnique(Words(text)[i], Low(i), High(i), Ok(FieldOf(e, i)), Ok(FieldOf(f, i)));
    }
    SameFields(e, f);
  }

  function PrintField(e: Expr, i: nat): string
    requires i < 5
  {
    PrintSet(FieldOf(e, i), Low(i), High(i))
  }

  function PrintFields(e: Expr): (words: seq<string>)
    ensures |words| == 5 && forall i :: 0 <= i < 5 ==> words[i] == PrintField(e, i)
  {
    seq(5, i requires 0 <= i < 5 => PrintField(e, i))
  }

  function Print(e: Expr): string {
    Join(PrintFields(e), ' ')
  }

  lemma PrintedFieldIsRead(e: Expr, i: nat, r: Result<set<int>, FieldError>)
    requires i < 5 && FieldValid(FieldOf(e, i), Low(i), High(i))
    ensures IsWord(PrintField(e, i))
    ensures FieldReads(PrintField(e, i), i, r) ==> r == Ok(FieldOf(e, i))
  {
    PrintedWord(FieldOf(e, i), Low(i), High(i));
    if FieldReads(PrintField(e, i), i, r) {
      PrintedSetReads(FieldOf(e, i), Low(i), High(i), r);
    }
  }

  lemma PrintedWords(e: Expr)
    requires Valid(e)
    ensures Words(Print(e)) == PrintFields(e)
  {
    forall i | 0 <= i < 5 ensures IsWord(PrintFields(e)[i]) {
      PrintedFieldIsRead(e, i, Err(EmptyField));
    }
    WordsOfJoin(PrintFields(e));
  }

  lemma PrintedExprOnly(e: Expr, r: Result<Expr, ParseError>)
    requires Valid(e) && IsParse(Print(e), r)
    ensures r == Ok(e)
  {
    PrintedWords(e);
    match r
    case Ok(f) =>
      forall i | 0 <= i < 5 ensures FieldOf(f, i) == FieldOf(e, i) {
        PrintedFieldIsRead(e, i, Ok(FieldOf(f, i)));
      }
      SameFields(e, f);
    case Err(BadField(i, fault)) => PrintedFieldIsRead(e, i, Err(fault));
    case Err(_) =>
  }

  /** Reading a printed expression gives the expression back, and nothing else. */
  lemma PrintedExprReads(e: Expr, r: Result<Expr, ParseError>)
    requires Valid(e)
    ensures IsParse(Print(e), r) <==> r == Ok(e)
  {
    PrintedWords(e);
    forall i | 0 <= i < 5 ensures FieldReads(PrintField(e, i), i, Ok(FieldOf(e, i))) {
      PrintedSetIsRead(FieldOf(e, i), Low(i), High(i));
    }
    if IsParse(Print(e), r) {
      PrintedExprOnly(e, r);
    }
  }

  // ---------- Matching ----------

  predicate DayMatches(e: Expr, day: nat) {
    var date := DateOf(day);
    date.day in e.days && date.month in e.months && Weekday(day) in e.weekdays
  }

  predicate Matches(e: Expr, m: nat) {
    MinuteField(m) in e.minutes && HourField(m) in e.hours && DayMatches(e, DayOfMinute(m))
  }

  /** The minutes an expression accepts. */
  function Hits(e: Expr): (hit: nat -> bool)
    ensures forall m: nat :: hit(m) <==> Matches(e, m)
  {
    (m: nat) => Matches(e, m)
  }

  // ---------- The next matching minute ----------

  const SWEEP: nat := 4 * 366 * 24 * 60

  datatype Next = At(minute: nat) | NoneInSweep | Overflow

  /** `steps` rounds of a search from minute `c` on for a minute that `hit` accepts. */
  function Sweep(hit: nat -> bool, c: nat, steps: nat): Next
    requires c < END_MINUTE
    decreases steps
  {
    if steps == 0 then NoneInSweep
    else if hit(c) then At(c)
    else if c + 1 == END_MINUTE then Overflow
    else Sweep(hit, c + 1, steps - 1)
  }

  function NextHit(hit: nat -> bool, dt: Instant): Next {
    var c := MinuteOf(dt) + 1;
    if c == END_MINUTE then Overflow else Sweep(hit, c, SWEEP)
  }

  function NextAfter(e: Expr, dt: Instant): Next {
    NextHit(Hits(e), dt)
  }

  method FindNext(e: Expr, dt: Instant) returns (r: Next)
    ensures r == NextAfter(e, dt)
  {
    var candidate: nat := MinuteOf(dt) + 1;
    if candidate == END_MINUTE {
      return Overflow;
    }
    ghost var hit, first := Hits(e), candidate;
    for round := 0 to SWEEP
      invariant candidate < END_MINUTE
      invariant Sweep(hit, first, SWEEP) == Sweep(hit, candidate, SWEEP - round)
    {
      if Matches(e, candidate) {
        return At(candidate);
      }
      if candidate + 1 == END_MINUTE {
        return Overflow;
      }
      candidate := candidate + 1;
    }
    return NoneInSweep;
  }

  ghost predicate NoHit(hit: nat -> bool, lo: nat, hi: int) {
    forall j: nat :: lo <= j < hi ==> !hit(j)
  }

  lemma {:induction false} SweepExact(hit: nat -> bool, c: nat, steps: nat)
    requires c < END_MINUTE
    ensures match Sweep(hit, c, steps)
            case At(m) => c <= m < c + steps && m < END_MINUTE && hit(m) && NoHit(hit, c, m)
            case NoneInSweep => c + steps < END_MINUTE && NoHit(hit, c, c + steps)
            case Overflow => c + steps >= END_MINUTE && NoHit(hit, c, END_MINUTE)
    decreases steps
  {
    if steps > 0 && !hit(c) && c + 1 < END_MINUTE {
      SweepExact(hit, c + 1, steps - 1);
    }
  }

  /** The last minute the sweep looks at. */
  function Horizon(dt: Instant): int {
    Min(MinuteOf(dt) + SWEEP, END_MINUTE - 1)
  }

  /** A failed search found no accepted minute up to its horizon; it overflows exactly when the
      last representable minute cuts the sweep short. */
  lemma NextExact(hit: nat -> bool, dt: Instant)
    ensures match NextHit(hit, dt)
            case At(m) => MinuteOf(dt) < m <= Horizon(dt) && hit(m) && NoHit(hit, MinuteOf(dt) + 1, m)
            case NoneInSweep =>
              && MinuteOf(dt) + SWEEP < END_MINUTE - 1
              && NoHit(hit, MinuteOf(dt) + 1, Horizon(dt) + 1)
            case Overflow =>
              && MinuteOf(dt) + SWEEP >= END_MINUTE - 1
              && NoHit(hit, MinuteOf(dt) + 1, Horizon(dt) + 1)
  {
    var c := MinuteOf(dt) + 1;
    if c < END_MINUTE {
      SweepExact(hit, c, SWEEP);
    }
  }

  /** `m` is the least accepted whole minute strictly after `dt`. */
  ghost predicate LeastAfter(hit: nat -> bool, dt: Instant, m: nat) {
    && m < END_MINUTE
    && StartOf(m) > dt
    && hit(m)
    && forall k: nat :: k < m && StartOf(k) > dt ==> !hit(k)
  }

  lemma AfterMeansLater(dt: Instant, k: nat)
    requires k < END_MINUTE
    ensures StartOf(k) > dt <==> k > MinuteOf(dt)
  {
  }

  /** The search succeeds exactly when an accepted minute lies within the sweep, and then
      returns the least one after `dt`. */
  lemma NextIsLeast(hit: nat -> bool, dt: Instant, m: nat)
    ensures NextHit(hit, dt) == At(m) <==> LeastAfter(hit, dt, m) && m <= Horizon(dt)
  {
    NextExact(hit, dt);
    var r := NextHit(hit, dt);
    if r == At(m) {
      forall k: nat | k < m && StartOf(k) > dt ensures !hit(k) {
        AfterMeansLater(dt, k);
      }
      AfterMeansLater(dt, m);
    } else if LeastAfter(hit, dt, m) && m <= Horizon(dt) {
      AfterMeansLater(dt, m);
      if r.At? {
        AfterMeansLater(dt, r.minute);
      }
    }
  }

  lemma NextExists(hit: nat -> bool, dt: Instant, k: nat)
    requires MinuteOf(dt) < k <= Horizon(dt) && hit(k)
    ensures NextHit(hit, dt).At? && NextHit(hit, dt).minute <= k
  {
    NextExact(hit, dt);
  }

  /** A later reading of the clock never yields an earlier minute. */
  lemma NextMonotone(hit: nat -> bool, s: Instant, t: Instant)
    requires s <= t && NextHit(hit, s).At? && NextHit(hit, t).At?
    ensures NextHit(hit, s).minute <= NextHit(hit, t).minute
  {
    NextExact(hit, s);
    NextExact(hit, t);
  }

  // ---------- When the sweep is long enough ----------

  /** The minute of a day at the given time. */
  function At24(day: nat, hour: int, minute: int): nat
    requires 0 <= hour < 24 && 0 <= minute < 60
  {
    1440 * day + 60 * hour + minute
  }

  lemma TimeFields(day: nat, hour: int, minute: int)
    requires 0 <= hour < 24 && 0 <= minute < 60
    ensures var m := At24(day, hour, minute);
            DayOfMinute(m) == day && HourField(m) == hour && MinuteField(m) == minute
  {
    var m := At24(day, hour, minute);
    assert m / 60 == 24 * day + hour;
  }

  /** A later day, at most 1463 days on, with an admitted date and weekday, suffices. */
  lemma DayFound(e: Expr, dt: Instant, day: nat)
    requires Valid(e) && DayMatches(e, day)
    requires DayOf(dt) < day <= DayOf(dt) + 1463
    requires 1440 * (day + 1) <= END_MINUTE
    ensures NextAfter(e, dt).At?
  {
    ValidFields(e);
    var minute := Member(e.minutes);
    var hour := Member(e.hours);
    TimeFields(day, hour, minute);
    NextExists(Hits(e), dt, At24(day, hour, minute));
  }

  function DayOf(dt: Instant): nat { DayOfMinute(MinuteOf(dt)) }

  lemma DateAtDay(dt: Instant)
    ensures ValidDate(DateAt(dt)) && DayNumber(DateAt(dt)) == DayOf(dt)
    ensures DaysBeforeYear(DateAt(dt).year) <= DayOf(dt) < DaysBeforeYear(DateAt(dt).year + 1)
  {
  }

  lemma YearsAhead(n: nat, y: int, d: Date)
    requires y >= 1 && DaysBeforeYear(y) <= n < DaysBeforeYear(y + 1)
    requires ValidDate(d) && y < d.year <= y + 3
    ensures n < DayNumber(d) <= n + 1463
  {
    var k := DayNumber(d);
    assert n < k by {
      YearsInOrder(y + 1, d.year);
    }
    assert k <= n + 1463 by {
      YearsAtMost(y, d.year + 1);
    }
  }

  lemma WithinDays(dt: Instant, d: Date)
    requires ValidDate(d) && DateAt(dt).year < d.year <= DateAt(dt).year + 3 && d.year <= 9999
    ensures DayOf(dt) < DayNumber(d) <= DayOf(dt) + 1463
    ensures 1440 * (DayNumber(d) + 1) <= END_MINUTE
  {
    DateAtDay(dt);
    YearsAhead(DayOf(dt), DateAt(dt).year, d);
    BeforeTheEnd(d);
  }

  /** Some admitted date exists in every year. */
  ghost predicate YearlyDate(e: Expr) {
    exists m, d :: m in e.months && d in e.days && 1 <= m <= 12 && d <= DaysInMonth(1, m)
  }

  /** 29 February is admitted. */
  predicate LeapDate(e: Expr) {
    2 in e.months && 29 in e.days
  }

  ghost predicate EveryWeekday(e: Expr) {
    forall w :: 0 <= w <= 6 ==> w in e.weekdays
  }

  ghost predicate EveryDay(e: Expr) {
    forall d :: 1 <= d <= 31 ==> d in e.days
  }

  /** With weekday `*`, an expression admitting a date of the common year always fires again. */
  lemma WeekdayStarYearly(e: Expr, dt: Instant)
    requires Valid(e) && EveryWeekday(e) && YearlyDate(e)
    requires DateAt(dt).year < 9999
    ensures NextAfter(e, dt).At?
  {
    ValidFields(e);
    var m, d :| m in e.months && d in e.days && 1 <= m <= 12 && d <= DaysInMonth(1, m);
    var date := Date(DateAt(dt).year + 1, m, d);
    CommonYearShortest(date.year, m);
    WithinDays(dt, date);
    DateRoundTrip(date);
    DayFound(e, dt, DayNumber(date));
  }

  /** What the search finds lies on a matching day of the next 1464. */
  lemma NextDay(e: Expr, dt: Instant)
    ensures var r := NextAfter(e, dt);
            r.At? ==> DayMatches(e, DayOfMinute(r.minute)) && DayOf(dt) <= DayOfMinute(r.minute) <= DayOf(dt) + 1464
  {
    NextExact(Hits(e), dt);
  }

  /** An admitted date is one of the common year or 29 February. */
  lemma AdmittedOn(e: Expr, d: Date)
    requires ValidDate(d) && d.day in e.days && d.month in e.months
    ensures YearlyDate(e) || (d.month == 2 && d.day == 29 && IsLeap(d.year))
  {
    CommonYearShortest(d.year, d.month);
    if d.day > DaysInMonth(1, d.month) {
      assert d.month == 2 && d.day == 29;
    }
  }

  lemma AdmittedDate(e: Expr, day: nat)
    requires DayMatches(e, day)
    ensures YearlyDate(e) || LeapDate(e)
  {
    AdmittedOn(e, DateOf(day));
  }

  /** An expression admitting neither such a date nor 29 February never fires. */
  lemma ImpossibleDate(e: Expr, dt: Instant)
    requires !YearlyDate(e) && !LeapDate(e)
    ensures !NextAfter(e, dt).At?
  {
    NextDay(e, dt);
    if NextAfter(e, dt).At? {
      AdmittedDate(e, DayOfMinute(NextAfter(e, dt).minute));
    }
  }

  /** The next multiple of four from `y` on. */
  function NextFour(y: int): int {
    y + (4 - y % 4) % 4
  }

  /** 29 February returns within the sweep: the next year divisible by four is a leap
      year, and so is the one after it when the search may start late in the first. */
  predicate LeapSoon(y: int) {
    IsLeap(NextFour(y)) && (y < NextFour(y) || IsLeap(y + 4))
  }

  lemma NoLeapNear(y: int)
    requires IsLeap(y)
    ensures !IsLeap(y + 1) && !IsLeap(y + 2) && !IsLeap(y + 3)
  {
  }

  lemma FourYears(y: int)
    requires y >= 1 && IsLeap(y)
    ensures DaysBeforeYear(y + 4) == DaysBeforeYear(y) + 1461
  {
    NoLeapNear(y);
    NextYear(y);
    NextYear(y + 1);
    NextYear(y + 2);
    NextYear(y + 3);
  }

  lemma LeapDay(y: int)
    requires y >= 1 && IsLeap(y)
    ensures ValidDate(Date(y, 2, 29)) && DayNumber(Date(y, 2, 29)) == DaysBeforeYear(y) + 59
  {
  }

  /** In a leap year, this year's leap day or the one four years on is ahead. */
  lemma LeapDayFrom(n: nat, y: int) returns (date: Date)
    requires y >= 1 && IsLeap(y) && IsLeap(y + 4) && DaysBeforeYear(y) <= n < DaysBeforeYear(y + 1)
    ensures ValidDate(date) && date.month == 2 && date.day == 29 && y <= date.year <= y + 4
    ensures n < DayNumber(date) <= n + 1463
  {
    LeapDay(y);
    LeapDay(y + 4);
    FourYears(y);
    NextYear(y);
    date := Date(if n < DayNumber(Date(y, 2, 29)) then y else y + 4, 2, 29);
  }

  lemma BeforeTheEnd(d: Date)
    requires ValidDate(d) && d.year <= 9999
    ensures 1440 * (DayNumber(d) + 1) <= END_MINUTE
  {
    YearsInOrder(d.year + 1, 10000);
  }

  /** From day `n` in year `y`. */
  lemma LeapDayWithin(n: nat, y: int) returns (date: Date)
    requires y >= 1 && DaysBeforeYear(y) <= n < DaysBeforeYear(y + 1) && LeapSoon(y)
    ensures ValidDate(date) && date.month == 2 && date.day == 29 && date.year <= y + 4
    ensures n < DayNumber(date) <= n + 1463
  {
    if y < NextFour(y) {
      date := Date(NextFour(y), 2, 29);
      LeapDay(NextFour(y));
      YearsAhead(n, y, date);
    } else {
      date := LeapDayFrom(n, y);
    }
  }

  lemma LeapDayAhead(dt: Instant) returns (date: Date)
    requires LeapSoon(DateAt(dt).year) && DateAt(dt).year < 9996
    ensures ValidDate(date) && date.month == 2 && date.day == 29
    ensures DayOf(dt) < DayNumber(date) <= DayOf(dt) + 1463
    ensures 1440 * (DayNumber(date) + 1) <= END_MINUTE
  {
    DateAtDay(dt);
    date := LeapDayWithin(DayOf(dt), DateAt(dt).year);
    BeforeTheEnd(date);
  }

  lemma MatchAt(e: Expr, d: Date, hour: int, minute: int)
    requires ValidDate(d) && 0 <= hour < 24 && 0 <= minute < 60
    requires d.day in e.days && d.month in e.months && Weekday(DayNumber(d)) in e.weekdays
    requires hour in e.hours && minute in e.minutes
    ensures Matches(e, At24(DayNumber(d), hour, minute))
  {
    DateRoundTrip(d);
    TimeFields(DayNumber(d), hour, minute);
  }

  /** A minute of 29 February at an admitted time lies ahead within the sweep. */
  ghost predicate LeapMinuteAhead(e: Expr, dt: Instant) {
    exists y, hour, minute {:trigger LeapMinute(e, y, hour, minute)} ::
      LeapMinute(e, y, hour, minute) && MinuteOf(dt) < At24(LeapDayNumber(y), hour, minute) <= Horizon(dt)
  }

  predicate LeapMinute(e: Expr, y: int, hour: int, minute: int) {
    y >= 1 && IsLeap(y) && hour in e.hours && 0 <= hour < 24 && minute in e.minutes && 0 <= minute < 60
  }

  function LeapDayNumber(y: int): nat
    requires y >= 1 && IsLeap(y)
  {
    DayNumber(Date(y, 2, 29))
  }

  /** A day matching an expression without yearly dates is a 29 February. */
  lemma OnlyLeapDays(e: Expr, day: nat)
    requires DayMatches(e, day) && !YearlyDate(e)
    ensures DateOf(day).month == 2 && DateOf(day).day == 29 && IsLeap(DateOf(day).year)
  {
    AdmittedOn(e, DateOf(day));
  }

  lemma MinuteParts(m: nat)
    ensures 0 <= HourField(m) < 24 && 0 <= MinuteField(m) < 60
    ensures m == At24(DayOfMinute(m), HourField(m), MinuteField(m))
  {
    assert m / 60 == 24 * (m / 1440) + HourField(m);
  }

  /** What is found without yearly dates is a minute of 29 February. */
  lemma FoundIsLeapMinute(e: Expr, dt: Instant)
    requires !YearlyDate(e) && NextAfter(e, dt).At?
    ensures LeapMinuteAhead(e, dt)
  {
    NextExact(Hits(e), dt);
    var m := NextAfter(e, dt).minute;
    OnlyLeapDays(e, DayOfMinute(m));
    MinuteParts(m);
    assert LeapMinute(e, DateOf(DayOfMinute(m)).year, HourField(m), MinuteField(m));
  }

  lemma LeapMinuteFound(e: Expr, dt: Instant)
    requires EveryWeekday(e) && LeapDate(e) && LeapMinuteAhead(e, dt)
    ensures NextAfter(e, dt).At?
  {
    var y, hour, minute :| LeapMinute(e, y, hour, minute)
                           && MinuteOf(dt) < At24(LeapDayNumber(y), hour, minute) <= Horizon(dt);
    MatchAt(e, Date(y, 2, 29), hour, minute);
    NextExists(Hits(e), dt, At24(LeapDayNumber(y), hour, minute));
  }

  /** With weekday `*`, 29 February alone is found if and only if one of its minutes at an
      admitted time lies between the start and the end of the sweep. */
  lemma WeekdayStarLeap(e: Expr, dt: Instant)
    requires EveryWeekday(e) && LeapDate(e) && !YearlyDate(e)
    ensures NextAfter(e, dt).At? <==> LeapMinuteAhead(e, dt)
  {
    if NextAfter(e, dt).At? {
      FoundIsLeapMinute(e, dt);
    } else if LeapMinuteAhead(e, dt) {
      LeapMinuteFound(e, dt);
    }
  }

  lemma LeapBetween(z: int)
    requires 1901 <= z <= 2099 && z % 4 == 0
    ensures IsLeap(z)
  {
    assert z == 2000 || z % 100 != 0;
  }

  lemma LeapSoonThisCentury(y: int)
    requires 1901 <= y <= 2095
    ensures LeapSoon(y)
  {
    var z := NextFour(y);
    assert z % 4 == 0 && y <= z <= 2096;
    LeapBetween(z);
    if z == y {
      LeapBetween(y + 4);
    }
  }

  /** From every start between 1901 and 2095 such a minute lies ahead. */
  lemma LeapMinuteThisCentury(e: Expr, dt: Instant)
    requires Valid(e) && 1901 <= DateAt(dt).year <= 2095
    ensures LeapMinuteAhead(e, dt)
  {
    ValidFields(e);
    LeapSoonThisCentury(DateAt(dt).year);
    var date := LeapDayAhead(dt);
    var hour := Member(e.hours);
    var minute := Member(e.minutes);
    TimeFields(DayNumber(date), hour, minute);
    assert LeapMinute(e, date.year, hour, minute);
  }

  /** With weekday `*` the search succeeds exactly when a date of the common year is
      admitted, or 29 February is and one of its minutes lies within the sweep. */
  lemma WeekdayStar(e: Expr, dt: Instant)
    requires Valid(e) && EveryWeekday(e) && DateAt(dt).year < 9999
    ensures NextAfter(e, dt).At? <==> YearlyDate(e) || (LeapDate(e) && LeapMinuteAhead(e, dt))
  {
    if YearlyDate(e) {
      WeekdayStarYearly(e, dt);
    } else if LeapDate(e) {
      WeekdayStarLeap(e, dt);
    } else {
      ImpossibleDate(e, dt);
    }
  }

  lemma WeekdayShift(n: nat, w: int)
    requires 0 <= w < 7
    ensures Weekday(n + (w - Weekday(n)) % 7) == w
  {
  }

  /** Every weekday occurs among the first 28 days of a month. */
  lemma WeekdayInMonth(y: int, m: int, w: int) returns (date: Date)
    requires y >= 1 && 1 <= m <= 12 && 0 <= w < 7
    ensures ValidDate(date) && date.year == y && date.month == m && Weekday(DayNumber(date)) == w
  {
    var first := DayNumber(Date(y, m, 1));
    date := Date(y, m, 1 + (w - Weekday(first)) % 7);
    assert DayNumber(date) == first + (w - Weekday(first)) % 7;
    WeekdayShift(first, w);
  }

  /** With day `*`, every admitted month has a day on every weekday, so the search succeeds. */
  lemma DayStar(e: Expr, dt: Instant)
    requires Valid(e) && EveryDay(e)
    requires DateAt(dt).year < 9999
    ensures NextAfter(e, dt).At?
  {
    ValidFields(e);
    var m := Member(e.months);
    var w := Member(e.weekdays);
    var date := WeekdayInMonth(DateAt(dt).year + 1, m, w);
    WithinDays(dt, date);
    DateRoundTrip(date);
    DayFound(e, dt, DayNumber(date));
  }

  // ---------- When it is not ----------

  /** Only Mondays that fall on 29 February. */
  predicate LeapMondays(e: Expr) {
    e.days == {29} && e.months == {2} && e.weekdays == {0}
  }

  lemma LeapMonday2044(d: Date)
    requires ValidDate(d) && d.year == 2044 && d.month == 2 && d.day == 29
    ensures Weekday(DayNumber(d)) == 0 && DayNumber(d) > START
  {
    assert DaysBeforeYear(2044) == 746_190;
  }

  /** The day number of 1 March 2024. */
  const START: nat := 738_945

  lemma StartIsMarch2024(d: Date)
    requires d.year == 2024 && d.month == 3 && d.day == 1
    ensures ValidDate(d) && DayNumber(d) == START
  {
    assert DaysBeforeYear(2024) == 738_885;
  }

  lemma StartDay(dt: Instant, d: Date)
    requires d == DateAt(dt) && d.year == 2024 && d.month == 3 && d.day == 1
    ensures DayOf(dt) == START
  {
    DateAtDay(dt);
    StartIsMarch2024(d);
  }

  lemma SweepMisses(e: Expr, dt: Instant)
    requires LeapMondays(e) && DayOf(dt) == START
    ensures !NextAfter(e, dt).At?
  {
    NextDay(e, dt);
    if NextAfter(e, dt).At? {
      NoLeapMondayWithin(e, DayOfMinute(NextAfter(e, dt).minute));
    }
  }

  /** Day and weekday are conjoined, so the four-year sweep can miss an expression that
      does match later: from 1 March 2024 the next leap Monday is in 2044. */
  lemma SweepTooShort(e: Expr, dt: Instant, start: Date, hit: Date, hour: int, minute: int)
    requires LeapMondays(e) && hour in e.hours && 0 <= hour < 24 && minute in e.minutes && 0 <= minute < 60
    requires start == DateAt(dt) && start.year == 2024 && start.month == 3 && start.day == 1
    requires ValidDate(hit) && hit.year == 2044 && hit.month == 2 && hit.day == 29
    ensures DayOf(dt) < DayNumber(hit) && Matches(e, At24(DayNumber(hit), hour, minute))
    ensures !NextAfter(e, dt).At?
  {
    StartDay(dt, start);
    LeapMonday2044(hit);
    MatchAt(e, hit, hour, minute);
    SweepMisses(e, dt);
  }

  lemma NoLeapMondayWithin(e: Expr, day: nat)
    requires LeapMondays(e) && START <= day <= START + 1464
    ensures !DayMatches(e, day)
  {
    if DayMatches(e, day) {
      LeapMondayDate(e, day);
      NoLeapMonday(DateOf(day));
    }
  }

  lemma LeapMondayDate(e: Expr, day: nat)
    requires LeapMondays(e) && DayMatches(e, day)
    ensures DateOf(day).month == 2 && DateOf(day).day == 29 && Weekday(day) == 0
  {
  }

  lemma NoLeapMonday(d: Date)
    requires ValidDate(d) && d.month == 2 && d.day == 29
    requires START <= DayNumber(d) <= START + 1464
    ensures Weekday(DayNumber(d)) != 0
  {
    assert DaysBeforeYear(2024) == 738_885 && DaysBeforeYear(2029) == 740_712;
    if d.year <= 2023 {
      YearsInOrder(d.year + 1, 2024);
    } else if d.year >= 2029 {
      YearsInOrder(2029, d.year);
    }
    assert d.year == 2028 || d.year == 2024;
    assert DaysBeforeYear(2028) == 740_346;
  }

  /** Leap-day Mondays can be written: "0 0 29 2 0". */
  lemma LeapMondayText() returns (text: string, e: Expr)
    ensures Valid(e) && LeapMondays(e) && IsParse(text, Ok(e))
  {
    e := Expr({0}, {0}, {29}, {2}, {0});
    forall i | 0 <= i < 5 ensures FieldValid(FieldOf(e, i), Low(i), High(i)) {
    }
    text := Print(e);
    PrintedExprReads(e, Ok(e));
  }
}
