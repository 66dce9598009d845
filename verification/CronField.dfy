/** One field of a cron expression: lists, ranges and steps
    (`_parse_field` of ota_core/automation/cron.py). */
module CronField {
  import opened Outcomes
  import opened Text

  datatype FieldError =
    | InvalidStep(text: string)
    | StepNotPositive(step: int)
    | InvalidRange(text: string)
    | RangeReversed(text: string)
    | InvalidValue(text: string)
    | OutsideRange(value: int)
    | EmptyField

  /** The numbers one comma-separated part walks over. */
  datatype Span = Span(lo: int, hi: int, step: int)

  predicate OnStep(v: int, lo: int, step: int)
    requires step > 0
  {
    (v - lo) % step == 0
  }

  predicate InSpan(v: int, s: Span)
    requires s.step > 0
  {
    s.lo <= v <= s.hi && OnStep(v, s.lo, s.step)
  }

  lemma StartOnStep(lo: int, step: int)
    requires step > 0
    ensures OnStep(lo, lo, step)
  {
  }

  // ---------- Reading one part ----------

  function ReadStep(part: string): (r: Result<(string, int), FieldError>)
    ensures r.Ok? ==> r.value.1 > 0
  {
    var i := IndexOf(part, '/');
    if i == |part| then Ok((part, 1))
    else
      var stepText := part[i + 1..];
      match ReadInt(stepText)
      case None => Err(InvalidStep(stepText))
      case Some(step) => if step <= 0 then Err(StepNotPositive(step)) else Ok((part[..i], step))
  }

  function ReadBase(base: string, min: int, max: int): (r: Result<(int, int), FieldError>)
    requires min <= max
    ensures r.Ok? ==> r.value.0 <= r.value.1
  {
    if base == "*" then Ok((min, max))
    else
      var i := IndexOf(base, '-');
      if i < |base| then
        match (ReadInt(base[..i]), ReadInt(base[i + 1..]))
        case (Some(lo), Some(hi)) => if lo > hi then Err(RangeReversed(base)) else Ok((lo, hi))
        case _ => Err(InvalidRange(base))
      else
        match ReadInt(base)
        case Some(v) => Ok((v, v))
        case None => Err(InvalidValue(base))
  }

  function ReadPart(part: string, min: int, max: int): (r: Result<Span, FieldError>)
    requires min <= max
    ensures r.Ok? ==> r.value.lo <= r.value.hi && r.value.step > 0
  {
    match ReadStep(part)
    case Err(e) => Err(e)
    case Ok((base, step)) =>
      match ReadBase(base, min, max)
      case Err(e) => Err(e)
      case Ok((lo, hi)) => Ok(Span(lo, hi, step))
  }

  /** The first number of the span that lies outside [min, max], if any. */
  function FirstOutside(s: Span, min: int, max: int): Option<int>
    requires s.lo <= s.hi
  {
    if s.lo < min || s.lo > max then Some(s.lo)
    else if s.hi > max then Some(max + 1)
    else None
  }

  // ---------- The meaning of a whole field ----------

  /** What is wrong with one part, if anything. */
  function PartError(part: string, min: int, max: int): Option<FieldError>
    requires min <= max
  {
    match ReadPart(part, min, max)
    case Err(e) => Some(e)
    case Ok(s) =>
      match FirstOutside(s, min, max)
      case Some(v) => Some(OutsideRange(v))
      case None => None
  }

  predicate Denotes(part: string, min: int, max: int, v: int)
    requires min <= max
  {
    var r := ReadPart(part, min, max);
    r.Ok? && InSpan(v, r.value)
  }

  /** Some part of the field denotes `v`. */
  ghost predicate SomeDenotes(parts: seq<string>, min: int, max: int, v: int)
    requires min <= max
  {
    exists part :: part in parts && Denotes(part, min, max, v)
  }

  /** What is wrong with each of the parts. */
  function Faults(parts: seq<string>, min: int, max: int): (faults: seq<Option<FieldError>>)
    requires min <= max
    ensures |faults| == |parts|
    ensures forall k :: 0 <= k < |parts| ==> faults[k] == PartError(parts[k], min, max)
  {
    seq(|parts|, k requires 0 <= k < |parts| => PartError(parts[k], min, max))
  }

  predicate NoFault(faults: seq<Option<FieldError>>, n: nat)
    requires n <= |faults|
  {
    forall k :: 0 <= k < n ==> faults[k] == None
  }

  ghost predicate FirstFault(faults: seq<Option<FieldError>>, e: FieldError) {
    exists k :: 0 <= k < |faults| && faults[k] == Some(e) && NoFault(faults, k)
  }

  /** The outcome that the parts call for: the union of what they denote, or the
      error of the first faulty part. */
  ghost predicate IsUnion(parts: seq<string>, min: int, max: int, r: Result<set<int>, FieldError>)
    requires min <= max
  {
    var faults := Faults(parts, min, max);
    match r
    case Ok(values) =>
      NoFault(faults, |faults|) && forall v :: v in values <==> SomeDenotes(parts, min, max, v)
    case Err(e) => FirstFault(faults, e)
  }

  ghost predicate IsOutcome(spec: string, min: int, max: int, r: Result<set<int>, FieldError>)
    requires min <= max
  {
    IsUnion(Split(spec, ','), min, max, r)
  }

  lemma StarOutcome(min: int, max: int, values: set<int>)
    requires min <= max
    requires forall v :: v in values <==> min <= v <= max
    ensures IsOutcome("*", min, max, Ok(values))
  {
    var parts := Split("*", ',');
    assert IndexOf("*", ',') == 1 && IndexOf("*", '/') == 1;
    assert ReadPart("*", min, max) == Ok(Span(min, max, 1));
    assert parts == ["*"];
    forall v ensures v in values <==> SomeDenotes(parts, min, max, v) {
      assert Denotes("*", min, max, v) <==> min <= v <= max;
      assert "*" in parts;
    }
  }

  /** `range(lo, hi + 1)` as a set. */
  function Range(lo: int, hi: int): (r: set<int>)
    ensures forall v :: v in r <==> lo <= v <= hi
    decreases hi - lo
  {
    if lo > hi then {} else {lo} + Range(lo + 1, hi)
  }

  /** The values of one part, collected one number at a time. */
  method CollectSpan(s: Span, min: int, max: int, out: set<int>) returns (r: Result<set<int>, FieldError>)
    requires s.lo <= s.hi && s.step > 0 && min <= max
    ensures FirstOutside(s, min, max).Some? ==> r == Err(OutsideRange(FirstOutside(s, min, max).value))
    ensures FirstOutside(s, min, max).None? ==> r.Ok? && forall v :: v in r.value <==> v in out || InSpan(v, s)
  {
    var values, v := out, s.lo;
    while v <= s.hi
      invariant s.lo <= v <= s.hi + 1
      invariant v > s.lo ==> min <= s.lo && v - 1 <= max
      invariant forall u :: u in values <==> u in out || (u < v && InSpan(u, s))
    {
      if v < min || v > max {
        return Err(OutsideRange(v));
      }
      if (v - s.lo) % s.step == 0 {
        values := values + {v};
      }
      v := v + 1;
    }
    return Ok(values);
  }

  /** One part of the list: read it, then collect its values. */
  method CollectPart(part: string, min: int, max: int, out: set<int>) returns (r: Result<set<int>, FieldError>)
    requires min <= max
    ensures PartError(part, min, max) == if r.Err? then Some(r.error) else None
    ensures r.Ok? ==> r.value != {}
    ensures r.Ok? ==> forall v :: v in r.value <==> v in out || Denotes(part, min, max, v)
  {
    var span := ReadPart(part, min, max);
    if span.Err? {
      return Err(span.error);
    }
    r := CollectSpan(span.value, min, max, out);
    StartOnStep(span.value.lo, span.value.step);
    assert InSpan(span.value.lo, span.value);
  }

  method ParseField(spec: string, min: int, max: int) returns (r: Result<set<int>, FieldError>)
    requires min <= max
    ensures IsOutcome(spec, min, max, r)
  {
    if spec == "*" {
      r := Ok(Range(min, max));
      StarOutcome(min, max, r.value);
      return;
    }
    var out: set<int> := {};
    var parts := Split(spec, ',');
    ghost var faults := Faults(parts, min, max);
    for k := 0 to |parts|
      invariant NoFault(faults, k)
      invariant forall v :: v in out <==> SomeDenotes(parts[..k], min, max, v)
      invariant k > 0 ==> out != {}
    {
      var part := parts[k];
      var more := CollectPart(part, min, max, out);
      if more.Err? {
        assert faults[k] == Some(more.error);
        return more;
      }
      assert faults[k] == None;
      OneMoreSound(faults, k);
      OneMorePart(parts, k, min, max, out, more.value);
      out := more.value;
    }
    assert parts[..|parts|] == parts;
    if out == {} {
      assert false;
      return Err(EmptyField);
    }
    return Ok(out);
  }

  lemma OneMoreSound(faults: seq<Option<FieldError>>, k: nat)
    requires k < |faults| && NoFault(faults, k) && faults[k] == None
    ensures NoFault(faults, k + 1)
  {
  }

  lemma OneMorePart(parts: seq<string>, k: nat, min: int, max: int, out: set<int>, more: set<int>)
    requires k < |parts| && min <= max
    requires forall v :: v in out <==> SomeDenotes(parts[..k], min, max, v)
    requires forall v :: v in more <==> v in out || Denotes(parts[k], min, max, v)
    ensures forall v :: v in more <==> SomeDenotes(parts[..k + 1], min, max, v)
  {
    assert parts[..k + 1] == parts[..k] + [parts[k]];
  }

  /** A field that is read is non-empty and inside its range, and the error for an
      empty field is never raised. */
  lemma OutcomeInRange(spec: string, min: int, max: int, r: Result<set<int>, FieldError>)
    requires min <= max && IsOutcome(spec, min, max, r)
    ensures r.Ok? ==> r.value != {} && forall v :: v in r.value ==> min <= v <= max
    ensures r != Err(EmptyField)
  {
    var parts := Split(spec, ',');
    if r.Ok? {
      forall v | v in r.value ensures min <= v <= max {
        var part :| part in parts && Denotes(part, min, max, v);
        assert PartError(part, min, max) == None;
      }
      assert PartError(parts[0], min, max) == None;
      var s := ReadPart(parts[0], min, max).value;
      StartOnStep(s.lo, s.step);
      assert Denotes(parts[0], min, max, s.lo);
      assert s.lo in r.value;
    }
  }

  /** The outcome is determined by the text. */
  lemma OutcomeUnique(spec: string, min: int, max: int,
                      r: Result<set<int>, FieldError>, q: Result<set<int>, FieldError>)
    requires min <= max
    requires IsOutcome(spec, min, max, r) && IsOutcome(spec, min, max, q)
    ensures r == q
  {
    var parts := Split(spec, ',');
    if r.Ok? && q.Ok? {
      forall v ensures v in r.value <==> v in q.value {
        assert v in r.value <==> SomeDenotes(parts, min, max, v);
      }
      SameMembers(r.value, q.value);
    } else if r.Err? && q.Err? {
      FirstFaultUnique(Faults(parts, min, max), r.error, q.error);
    }
  }

  lemma FirstFaultUnique(faults: seq<Option<FieldError>>, e: FieldError, f: FieldError)
    requires FirstFault(faults, e) && FirstFault(faults, f)
    ensures e == f
  {
  }

  // ---------- Printing ----------

  /** The ways of writing a part; the step is left out when it is None. */
  datatype Item =
    | Every(step: Option<nat>)
    | Between(lo: nat, hi: nat, step: Option<nat>)
    | Just(value: nat, step: Option<nat>)

  function Base(i: Item): string {
    match i
    case Every(_) => "*"
    case Between(lo, hi, _) => Decimal(lo) + "-" + Decimal(hi)
    case Just(v, _) => Decimal(v)
  }

  function PrintItem(i: Item): string {
    Base(i) + match i.step case None => "" case Some(n) => "/" + Decimal(n)
  }

  function PrintItems(items: seq<Item>): string {
    Join(seq(|items|, k requires 0 <= k < |items| => PrintItem(items[k])), ',')
  }

  predicate ItemFits(i: Item, min: int, max: int) {
    && (i.step.Some? ==> i.step.value > 0)
    && (i.Between? ==> min <= i.lo <= i.hi <= max)
    && (i.Just? ==> min <= i.value <= max)
  }

  /** What an item stands for, said without reference to its text. */
  ghost predicate ItemHolds(i: Item, min: int, max: int, v: int) {
    match i
    case Every(None) => min <= v <= max
    case Every(Some(step)) => min <= v <= max && step > 0 && OnStep(v, min, step)
    case Between(lo, hi, None) => lo <= v <= hi
    case Between(lo, hi, Some(step)) => lo <= v <= hi && step > 0 && OnStep(v, lo, step)
    case Just(value, _) => v == value
  }

  ghost predicate SomeHolds(items: seq<Item>, min: int, max: int, v: int) {
    exists k :: 0 <= k < |items| && ItemHolds(items[k], min, max, v)
  }

  lemma NoSeparator(s: string, c: char)
    requires c !in s
    ensures IndexOf(s, c) == |s|
  {
  }

  lemma DigitsOnly(n: nat, c: char)
    requires !IsDigit(c)
    ensures c !in Decimal(n)
  {
  }

  function Ends(i: Item, min: int, max: int): (int, int) {
    match i
    case Every(_) => (min, max)
    case Between(lo, hi, _) => (lo, hi)
    case Just(v, _) => (v, v)
  }

  lemma DashReads(l: string, h: string, lo: int, hi: int, min: int, max: int)
    requires min <= max && lo <= hi
    requires '-' !in l && ReadInt(l) == Some(lo) && ReadInt(h) == Some(hi)
    ensures ReadBase(l + "-" + h, min, max) == Ok((lo, hi))
  {
    var b := l + "-" + h;
    IndexOfFirst(l, '-', h);
    assert b[|l|] == '-';
    assert b[..|l|] == l && b[|l| + 1..] == h;
  }

  lemma RangeReads(lo: nat, hi: nat, min: int, max: int)
    requires min <= max && lo <= hi
    ensures ReadBase(Decimal(lo) + "-" + Decimal(hi), min, max) == Ok((lo as int, hi as int))
  {
    ReadIntOfDecimal(lo);
    ReadIntOfDecimal(hi);
    DigitsOnly(lo, '-');
    DashReads(Decimal(lo), Decimal(hi), lo, hi, min, max);
  }

  lemma BaseReads(i: Item, min: int, max: int)
    requires min <= max && ItemFits(i, min, max)
    ensures ReadBase(Base(i), min, max) == Ok(Ends(i, min, max))
  {
    match i
    case Every(_) =>
    case Between(lo, hi, _) => RangeReads(lo, hi, min, max);
    case Just(v, _) =>
      ReadIntOfDecimal(v);
      DigitsOnly(v, '-');
      NoSeparator(Decimal(v), '-');
      assert IsDigit(Decimal(v)[0]);
  }

  predicate PlainChar(c: char) {
    IsDigit(c) || c == '*' || c == '-'
  }

  lemma BasePlain(i: Item)
    ensures Base(i) != [] && forall c :: c in Base(i) ==> PlainChar(c)
  {
  }

  lemma PrintedPlain(i: Item)
    ensures ',' !in PrintItem(i) && IsWord(PrintItem(i))
  {
    BasePlain(i);
  }

  function StepOf(i: Item): nat {
    if i.step.Some? then i.step.value else 1
  }

  lemma AroundSeparator(b: string, c: char, rest: string)
    ensures var s := b + ([c] + rest);
            s[..|b|] == b && s[|b| + 1..] == rest && s == b + [c] + rest
  {
  }

  lemma StepSplits(b: string, step: string)
    requires '/' !in b
    ensures var s := b + (['/'] + step);
            IndexOf(s, '/') == |b| && s[..|b|] == b && s[|b| + 1..] == step
  {
    AroundSeparator(b, '/', step);
    IndexOfFirst(b, '/', step);
  }

  lemma StepReads(i: Item)
    requires StepOf(i) > 0
    ensures ReadStep(PrintItem(i)) == Ok((Base(i), StepOf(i)))
  {
    BasePlain(i);
    match i.step
    case None =>
      assert PrintItem(i) == Base(i);
      NoSeparator(Base(i), '/');
    case Some(n) =>
      ReadIntOfDecimal(n);
      StepSplits(Base(i), Decimal(n));
      assert PrintItem(i) == Base(i) + (['/'] + Decimal(n));
  }

  lemma ItemReads(i: Item, min: int, max: int, v: int)
    requires min <= max && ItemFits(i, min, max)
    ensures PartError(PrintItem(i), min, max) == None
    ensures Denotes(PrintItem(i), min, max, v) <==> ItemHolds(i, min, max, v)
  {
    BaseReads(i, min, max);
    StepReads(i);
    StartOnStep(Ends(i, min, max).0, StepOf(i));
  }

  /** Every way of writing a field is read back as what it stands for. */
  lemma PrintedFieldReads(items: seq<Item>, min: int, max: int, r: Result<set<int>, FieldError>)
    requires min <= max && items != []
    requires forall k :: 0 <= k < |items| ==> ItemFits(items[k], min, max)
    requires IsOutcome(PrintItems(items), min, max, r)
    ensures r.Ok?
    ensures forall v :: v in r.value <==> SomeHolds(items, min, max, v)
  {
    var texts := seq(|items|, k requires 0 <= k < |items| => PrintItem(items[k]));
    forall k | 0 <= k < |items|
      ensures ',' !in texts[k] && IsWord(texts[k]) && PartError(texts[k], min, max) == None
    {
      PrintedPlain(items[k]);
      ItemReads(items[k], min, max, 0);
    }
    SplitOfJoin(texts, ',');
    forall v ensures v in r.value <==> SomeHolds(items, min, max, v) {
      PartsAndItems(items, texts, min, max, v);
    }
  }

  lemma PartsAndItems(items: seq<Item>, texts: seq<string>, min: int, max: int, v: int)
    requires min <= max && |texts| == |items|
    requires forall k :: 0 <= k < |items| ==> ItemFits(items[k], min, max) && texts[k] == PrintItem(items[k])
    ensures SomeDenotes(texts, min, max, v) <==> SomeHolds(items, min, max, v)
  {
    forall k | 0 <= k < |items|
      ensures Denotes(texts[k], min, max, v) <==> ItemHolds(items[k], min, max, v)
    {
      ItemReads(items[k], min, max, v);
    }
    if SomeHolds(items, min, max, v) {
      var k :| 0 <= k < |items| && ItemHolds(items[k], min, max, v);
      assert texts[k] in texts;
    }
  }

  lemma {:induction false} JoinIsWord(texts: seq<string>)
    requires texts != [] && forall k :: 0 <= k < |texts| ==> IsWord(texts[k])
    ensures IsWord(Join(texts, ','))
  {
    if |texts| > 1 {
      JoinIsWord(texts[1..]);
    }
  }

  /** The members of a set of numbers in increasing order, from `lo` on. */
  function Ascending(values: set<int>, lo: nat, hi: nat): (items: seq<Item>)
    requires lo <= hi
    ensures forall k :: 0 <= k < |items| ==> items[k].Just? && items[k].step.None?
    ensures forall k :: 0 <= k < |items| ==> items[k].value in values && lo <= items[k].value < hi
    ensures forall v: nat :: v in values && lo <= v < hi ==> Just(v, None) in items
    decreases hi - lo
  {
    if lo == hi then []
    else if lo in values then [Just(lo, None)] + Ascending(values, lo + 1, hi)
    else Ascending(values, lo + 1, hi)
  }

  function PrintSet(values: set<int>, min: nat, max: nat): string
    requires min <= max
  {
    PrintItems(Ascending(values, min, max + 1))
  }

  /** Reading the comma-separated members of a set gives back the set. */
  lemma PrintedSetReads(values: set<int>, min: nat, max: nat, r: Result<set<int>, FieldError>)
    requires min <= max && values != {} && forall v :: v in values ==> min <= v <= max
    requires IsOutcome(PrintSet(values, min, max), min, max, r)
    ensures r == Ok(values)
  {
    var items := Ascending(values, min, max + 1);
    var w := Member(values);
    assert Just(w, None) in items;
    PrintedFieldReads(items, min, max, r);
    forall v ensures v in r.value <==> v in values {
      AscendingHolds(values, min, max, v);
    }
    SameMembers(r.value, values);
  }

  lemma AscendingHolds(values: set<int>, min: nat, max: nat, v: int)
    requires min <= max && forall v :: v in values ==> min <= v <= max
    ensures SomeHolds(Ascending(values, min, max + 1), min, max, v) <==> v in values
  {
    var items := Ascending(values, min, max + 1);
    if v in values {
      assert Just(v, None) in items;
      var k :| 0 <= k < |items| && items[k] == Just(v, None);
      assert ItemHolds(items[k], min, max, v);
    }
  }

  /** The printed items of a list are its parts, and none is faulty. */
  lemma PrintedParts(items: seq<Item>, texts: seq<string>, min: int, max: int)
    requires min <= max && items != [] && |texts| == |items|
    requires forall k :: 0 <= k < |items| ==> ItemFits(items[k], min, max) && texts[k] == PrintItem(items[k])
    ensures Split(Join(texts, ','), ',') == texts
    ensures forall k :: 0 <= k < |texts| ==> PartError(texts[k], min, max) == None
  {
    forall k | 0 <= k < |items| ensures ',' !in texts[k] && PartError(texts[k], min, max) == None {
      PrintedPlain(items[k]);
      ItemReads(items[k], min, max, 0);
    }
    SplitOfJoin(texts, ',');
  }

  /** ... and it is read. */
  lemma PrintedSetIsRead(values: set<int>, min: nat, max: nat)
    requires min <= max && values != {} && forall v :: v in values ==> min <= v <= max
    ensures IsOutcome(PrintSet(values, min, max), min, max, Ok(values))
  {
    var items := Ascending(values, min, max + 1);
    var w := Member(values);
    assert Just(w, None) in items;
    var texts := seq(|items|, k requires 0 <= k < |items| => PrintItem(items[k]));
    PrintedParts(items, texts, min, max);
    forall v ensures v in values <==> SomeDenotes(texts, min, max, v) {
      PartsAndItems(items, texts, min, max, v);
      AscendingHolds(values, min, max, v);
    }
  }

  lemma PrintedWord(values: set<int>, min: nat, max: nat)
    requires min <= max && values != {} && forall v :: v in values ==> min <= v <= max
    ensures IsWord(PrintSet(values, min, max))
  {
    var items := Ascending(values, min, max + 1);
    var w := Member(values);
    assert Just(w, None) in items;
    var texts := seq(|items|, k requires 0 <= k < |items| => PrintItem(items[k]));
    forall k | 0 <= k < |items| ensures IsWord(texts[k]) {
      PrintedPlain(items[k]);
    }
    JoinIsWord(texts);
  }
}
