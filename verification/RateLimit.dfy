/** The dual token bucket of ota_core/http/client.py, over exact arithmetic.  Clock
    readings are inputs; a waiting call is given the readings of its successive rounds. */
module RateLimit {
  import opened Outcomes

  // ---------- Policies ----------

  datatype Policy = Policy(
    requestsPerSecond: real,
    burstCapacity: int,
    requestsPerMinute: Option<real>,
    burstPerMinute: Option<int>)

  datatype PolicyError = BadRate | BadBurst | BadMinuteRate | BadMinuteBurst

  function PolicyFault(p: Policy): Option<PolicyError> {
    if p.requestsPerSecond <= 0.0 then Some(BadRate)
    else if p.burstCapacity < 1 then Some(BadBurst)
    else if p.requestsPerMinute.Some? && p.requestsPerMinute.value <= 0.0 then Some(BadMinuteRate)
    else if p.burstPerMinute.Some? && p.burstPerMinute.value < 1 then Some(BadMinuteBurst)
    else None
  }

  // ---------- One level ----------

  datatype Level = Level(rate: real, capacity: int, tokens: real, last: real)

  function Lower(a: real, b: real): real { if b < a then b else a }
  function Upper(a: real, b: real): real { if b > a then b else a }

  predicate LevelOk(l: Level) {
    l.rate > 0.0 && 1 <= l.capacity && 0.0 <= l.tokens <= l.capacity as real
  }

  /** The tokens that a rate yields between two instants. */
  function Yield(rate: real, from: real, end: real): real {
    (end - from) * rate
  }

  function Gained(l: Level, now: real): real {
    Yield(l.rate, l.last, now)
  }

  function Refill(l: Level, now: real): Level {
    l.(tokens := Lower(l.capacity as real, l.tokens + Gained(l, now)), last := now)
  }

  function Take(l: Level, n: int): Level {
    l.(tokens := l.tokens - n as real)
  }

  function Wait(l: Level, n: int): real
    requires l.rate > 0.0
  {
    Upper(0.0, (n as real - l.tokens) / l.rate)
  }

  lemma YieldNotNegative(rate: real, from: real, end: real)
    requires rate > 0.0 && end >= from
    ensures Yield(rate, from, end) >= 0.0
  {
  }

  /** Time splits, and so does what it yields. */
  lemma YieldSplits(rate: real, from: real, mid: real, end: real)
    ensures Yield(rate, from, end) == Yield(rate, from, mid) + Yield(rate, mid, end)
  {
  }

  lemma RefillOk(l: Level, now: real)
    requires LevelOk(l) && l.last <= now
    ensures LevelOk(Refill(l, now)) && Refill(l, now).tokens >= Lower(l.tokens, l.capacity as real)
  {
    YieldNotNegative(l.rate, l.last, now);
  }

  lemma NoWait(l: Level, n: int)
    requires l.rate > 0.0
    ensures Wait(l, n) <= 0.0 <==> l.tokens >= n as real
  {
    var d := n as real - l.tokens;
    assert d / l.rate * l.rate == d;
    if d > 0.0 {
      assert d / l.rate > 0.0;
    }
  }

  // ---------- Both levels ----------

  datatype Bucket = Bucket(sec: Level, min: Option<Level>)

  /** The two clock readings of one round. */
  datatype Reading = Reading(sec: real, min: real)

  predicate BucketOk(b: Bucket) {
    LevelOk(b.sec) && (b.min.Some? ==> LevelOk(b.min.value))
  }

  /** A reading is no earlier than the last refill of either level. */
  predicate NotBefore(b: Bucket, r: Reading) {
    b.sec.last <= r.sec <= r.min && (b.min.Some? ==> b.min.value.last <= r.min)
  }

  function RefillBoth(b: Bucket, r: Reading): Bucket {
    Bucket(Refill(b.sec, r.sec), if b.min.Some? then Some(Refill(b.min.value, r.min)) else None)
  }

  predicate CanPay(b: Bucket, n: int) {
    b.sec.tokens >= n as real && (b.min.Some? ==> b.min.value.tokens >= n as real)
  }

  function Pay(b: Bucket, n: int): Bucket {
    Bucket(Take(b.sec, n), if b.min.Some? then Some(Take(b.min.value, n)) else None)
  }

  predicate RatesOk(b: Bucket) {
    b.sec.rate > 0.0 && (b.min.Some? ==> b.min.value.rate > 0.0)
  }

  function WaitBoth(b: Bucket, n: int): real
    requires RatesOk(b)
  {
    Upper(Wait(b.sec, n), if b.min.Some? then Wait(b.min.value, n) else 0.0)
  }

  /** One round of `acquire`: refill, and pay when both levels can. */
  function Attempt(b: Bucket, n: int, r: Reading): Bucket {
    var full := RefillBoth(b, r);
    if CanPay(full, n) then Pay(full, n) else full
  }

  predicate Grants(b: Bucket, n: int, r: Reading) {
    CanPay(RefillBoth(b, r), n)
  }

  datatype Outcome = Granted(round: nat) | Waiting | Rejected

  function AfterRounds(b: Bucket, n: int, readings: seq<Reading>): (Bucket, Outcome)
    decreases |readings|
  {
    if readings == [] then (b, Waiting)
    else if Grants(b, n, readings[0]) then (Attempt(b, n, readings[0]), Granted(0))
    else
      var (c, o) := AfterRounds(Attempt(b, n, readings[0]), n, readings[1..]);
      (c, if o.Granted? then Granted(o.round + 1) else o)
  }

  /** Readings of successive rounds never run backwards. */
  ghost predicate Ordered(b: Bucket, readings: seq<Reading>) {
    && (forall i :: 0 <= i < |readings| ==> NotBefore(b, readings[i]))
    && forall i, j :: 0 <= i < j < |readings| ==>
         readings[i].sec <= readings[j].sec && readings[i].min <= readings[j].sec
  }

  class TokenBucket {
    const secRate: real
    const secCapacity: int
    var secTokens: real
    var secLastRefill: real
    const minRate: Option<real>
    const minCapacity: int
    var minTokens: real
    var minLastRefill: real

    function State(): Bucket
      reads this
    {
      Bucket(Level(secRate, secCapacity, secTokens, secLastRefill),
             if minRate.Some? then Some(Level(minRate.value, minCapacity, minTokens, minLastRefill)) else None)
    }

    constructor (p: Policy, started: Reading)
      requires PolicyFault(p) == None
      ensures BucketOk(State())
      ensures State().sec == Level(p.requestsPerSecond, p.burstCapacity, p.burstCapacity as real, started.sec)
      ensures State().min.Some? <==> p.requestsPerMinute.Some?
      ensures p.requestsPerMinute.Some? ==>
                var l := State().min.value;
                && l.rate * 60.0 == p.requestsPerMinute.value && l.last == started.min && l.tokens == l.capacity as real
                && (p.burstPerMinute.Some? ==> l.capacity == p.burstPerMinute.value)
                && (p.burstPerMinute.None? ==> l.capacity == Max(1, p.requestsPerMinute.value.Floor))
    {
      secRate := p.requestsPerSecond;
      secCapacity := p.burstCapacity;
      secTokens := p.burstCapacity as real;
      secLastRefill := started.sec;
      minLastRefill := started.min;
      if p.requestsPerMinute.Some? {
        minRate := Some(p.requestsPerMinute.value / 60.0);
        var capacity := if p.burstPerMinute.Some? then p.burstPerMinute.value
                        else Max(1, p.requestsPerMinute.value.Floor);
        minCapacity := capacity;
        minTokens := capacity as real;
      } else {
        minRate := None;
        minCapacity := 0;
        minTokens := 0.0;
      }
    }

    method RefillSecond(now: real)
      requires BucketOk(State()) && secLastRefill <= now
      modifies this`secTokens, this`secLastRefill
      ensures State() == old(State()).(sec := Refill(old(State()).sec, now)) && BucketOk(State())
    {
      RefillOk(State().sec, now);
      var elapsed := now - secLastRefill;
      secTokens := Lower(secCapacity as real, secTokens + elapsed * secRate);
      secLastRefill := now;
    }

    method RefillMinute(now: real)
      requires BucketOk(State()) && minRate.Some? && minLastRefill <= now
      modifies this`minTokens, this`minLastRefill
      ensures State() == old(State()).(min := Some(Refill(old(State()).min.value, now))) && BucketOk(State())
    {
      RefillOk(State().min.value, now);
      ghost var l := State().min.value;
      assert Refill(l, now).tokens == Lower(minCapacity as real, minTokens + Gained(l, now));
      var elapsed := now - minLastRefill;
      minTokens := Lower(minCapacity as real, minTokens + elapsed * minRate.value);
      minLastRefill := now;
      assert minTokens == Refill(l, now).tokens && State().min.value == Refill(l, now);
    }

    /** The body of the loop of `acquire`. */
    method TryOnce(n: int, r: Reading) returns (granted: bool)
      requires BucketOk(State()) && NotBefore(State(), r) && n >= 1
      modifies this
      ensures BucketOk(State()) && State() == Attempt(old(State()), n, r)
      ensures granted == Grants(old(State()), n, r)
      ensures secTokens == Refill(old(State()).sec, r.sec).tokens - if granted then n as real else 0.0
      ensures minRate.Some? ==>
                minTokens == Refill(old(State()).min.value, r.min).tokens - if granted then n as real else 0.0
      ensures secLastRefill == r.sec && (minRate.Some? ==> minLastRefill == r.min)
    {
      RefillSecond(r.sec);
      if minRate.Some? {
        RefillMinute(r.min);
      }
      assert State() == RefillBoth(old(State()), r);
      var waitSec := Upper(0.0, (n as real - secTokens) / secRate);
      NoWait(State().sec, n);
      var waitMin := 0.0;
      if minRate.Some? {
        waitMin := Upper(0.0, (n as real - minTokens) / minRate.value);
        NoWait(State().min.value, n);
      }
      var wait := Upper(waitSec, waitMin);
      granted := wait <= 0.0;
      if granted {
        secTokens := secTokens - n as real;
        if minRate.Some? {
          minTokens := minTokens - n as real;
        }
      }
    }

    /** `acquire`, up to the rounds whose clock readings are given. */
    method Acquire(n: int, readings: seq<Reading>) returns (o: Outcome)
      requires BucketOk(State()) && Ordered(State(), readings)
      modifies this
      ensures BucketOk(State())
      ensures o == Rejected <==> n < 1
      ensures n < 1 ==> State() == old(State())
      ensures n >= 1 ==> (State(), o) == AfterRounds(old(State()), n, readings)
    {
      if n < 1 {
        return Rejected;
      }
      var i := 0;
      while i < |readings|
        invariant i <= |readings| && BucketOk(State())
        invariant forall j :: i <= j < |readings| ==> NotBefore(State(), readings[j])
        invariant var (b, q) := AfterRounds(State(), n, readings[i..]);
                  AfterRounds(old(State()), n, readings) == (b, if q.Granted? then Granted(q.round + i) else q)
      {
        assert readings[i..][1..] == readings[i + 1..];
        AttemptOk(State(), n, readings[i]);
        var granted := TryOnce(n, readings[i]);
        if granted {
          return Granted(i);
        }
        i := i + 1;
      }
      return Waiting;
    }
  }

  // ---------- Sliding windows ----------

  /** An amount taken from one level at the reading of its clock (zero in a waiting round). */
  datatype Draw = Draw(now: real, taken: int)

  ghost predicate Feasible(l: Level, draws: seq<Draw>)
    decreases |draws|
  {
    draws == [] ||
    var full := Refill(l, draws[0].now);
    l.last <= draws[0].now && 0 <= draws[0].taken && draws[0].taken as real <= full.tokens
    && Feasible(Take(full, draws[0].taken), draws[1..])
  }

  ghost function Taken(draws: seq<Draw>, from: real, to: real): int {
    if draws == [] then 0
    else Taken(draws[1..], from, to) + if from <= draws[0].now <= to then draws[0].taken else 0
  }

  /** What the level can still yield inside the window. */
  ghost function Budget(l: Level, from: real, to: real): real {
    if l.last > to then 0.0
    else if l.last >= from then l.tokens + Yield(l.rate, l.last, to)
    else l.capacity as real + Yield(l.rate, from, to)
  }

  lemma DrawSinceRefill(l: Level, d: Draw, from: real, to: real)
    requires LevelOk(l) && from <= l.last <= d.now <= to
    requires d.taken as real <= Refill(l, d.now).tokens
    ensures d.taken as real + Budget(Take(Refill(l, d.now), d.taken), from, to) <= Budget(l, from, to)
  {
    YieldSplits(l.rate, l.last, d.now, to);
    assert Refill(l, d.now).tokens <= l.tokens + Gained(l, d.now);
  }

  lemma DrawSinceWindow(l: Level, d: Draw, from: real, to: real)
    requires LevelOk(l) && l.last < from <= d.now <= to
    requires d.taken as real <= Refill(l, d.now).tokens
    ensures d.taken as real + Budget(Take(Refill(l, d.now), d.taken), from, to) <= Budget(l, from, to)
  {
    YieldNotNegative(l.rate, from, d.now);
    YieldSplits(l.rate, from, d.now, to);
    assert Refill(l, d.now).tokens <= l.capacity as real;
  }

  lemma BudgetStep(l: Level, d: Draw, from: real, to: real)
    requires LevelOk(l) && from <= to && l.last <= d.now
    requires 0 <= d.taken && d.taken as real <= Refill(l, d.now).tokens
    ensures (if from <= d.now <= to then d.taken as real else 0.0) + Budget(Take(Refill(l, d.now), d.taken), from, to)
            <= Budget(l, from, to)
  {
    if d.now > to {
      BudgetNotNegative(l, from, to);
    } else if from <= l.last {
      DrawSinceRefill(l, d, from, to);
    } else if from <= d.now {
      DrawSinceWindow(l, d, from, to);
    }
  }

  lemma TakeOk(l: Level, d: Draw)
    requires LevelOk(l) && l.last <= d.now
    requires 0 <= d.taken && d.taken as real <= Refill(l, d.now).tokens
    ensures LevelOk(Take(Refill(l, d.now), d.taken))
  {
    RefillOk(l, d.now);
  }

  lemma BudgetNotNegative(l: Level, from: real, to: real)
    requires LevelOk(l) && from <= to
    ensures Budget(l, from, to) >= 0.0
  {
    if from <= l.last <= to {
      YieldNotNegative(l.rate, l.last, to);
    } else if l.last < from {
      YieldNotNegative(l.rate, from, to);
    }
  }

  lemma {:induction false} DrawsWithinBudget(l: Level, draws: seq<Draw>, from: real, to: real)
    requires LevelOk(l) && Feasible(l, draws) && from <= to
    ensures Taken(draws, from, to) as real <= Budget(l, from, to)
    decreases |draws|
  {
    if draws == [] {
      BudgetNotNegative(l, from, to);
    } else {
      BudgetStep(l, draws[0], from, to);
      TakeOk(l, draws[0]);
      DrawsWithinBudget(Take(Refill(l, draws[0].now), draws[0].taken), draws[1..], from, to);
    }
  }

  lemma BudgetBound(l: Level, from: real, to: real)
    requires LevelOk(l) && from <= to
    ensures Budget(l, from, to) <= l.capacity as real + Yield(l.rate, from, to)
  {
    YieldNotNegative(l.rate, from, to);
    if from <= l.last <= to {
      YieldNotNegative(l.rate, from, l.last);
      YieldSplits(l.rate, from, l.last, to);
    }
  }

  /** The draws of a window are at most the capacity plus what the rate yields over its length. */
  ghost predicate WindowBounded(l: Level, draws: seq<Draw>, from: real, to: real) {
    Taken(draws, from, to) as real <= l.capacity as real + Yield(l.rate, from, to)
  }

  lemma WindowBound(l: Level, draws: seq<Draw>, from: real, to: real)
    requires LevelOk(l) && Feasible(l, draws) && from <= to
    ensures WindowBounded(l, draws, from, to)
  {
    DrawsWithinBudget(l, draws, from, to);
    BudgetBound(l, from, to);
  }

  // ---------- Runs of rounds ----------

  /** A round of some call: how many tokens it asks for, and its readings. */
  datatype Round = Round(tokens: int, at: Reading)

  ghost predicate RoundsOrdered(b: Bucket, rounds: seq<Round>)
    decreases |rounds|
  {
    rounds == [] ||
    (rounds[0].tokens >= 1 && NotBefore(b, rounds[0].at)
     && RoundsOrdered(Attempt(b, rounds[0].tokens, rounds[0].at), rounds[1..]))
  }

  /** The state after a run of rounds. */
  ghost function After(b: Bucket, rounds: seq<Round>): Bucket
    decreases |rounds|
  {
    if rounds == [] then b else After(Attempt(b, rounds[0].tokens, rounds[0].at), rounds[1..])
  }

  ghost function Drawn(b: Bucket, r: Round): int {
    if Grants(b, r.tokens, r.at) then r.tokens else 0
  }

  ghost function SecondDraws(b: Bucket, rounds: seq<Round>): seq<Draw>
    decreases |rounds|
  {
    if rounds == [] then []
    else [Draw(rounds[0].at.sec, Drawn(b, rounds[0]))]
         + SecondDraws(Attempt(b, rounds[0].tokens, rounds[0].at), rounds[1..])
  }

  ghost function MinuteDraws(b: Bucket, rounds: seq<Round>): seq<Draw>
    decreases |rounds|
  {
    if rounds == [] then []
    else [Draw(rounds[0].at.min, Drawn(b, rounds[0]))]
         + MinuteDraws(Attempt(b, rounds[0].tokens, rounds[0].at), rounds[1..])
  }

  lemma AttemptOk(b: Bucket, n: int, r: Reading)
    requires BucketOk(b) && NotBefore(b, r) && n >= 1
    ensures var c := Attempt(b, n, r);
            && BucketOk(c) && c.sec.last == r.sec && c.sec.rate == b.sec.rate && c.sec.capacity == b.sec.capacity
            && (c.min.Some? <==> b.min.Some?)
            && (b.min.Some? ==> && c.min.value.last == r.min && c.min.value.rate == b.min.value.rate
                                && c.min.value.capacity == b.min.value.capacity)
  {
    RefillOk(b.sec, r.sec);
    if b.min.Some? {
      RefillOk(b.min.value, r.min);
    }
  }

  /** Both levels stay between zero and their capacity in every run. */
  lemma {:induction false} LevelsStayInRange(b: Bucket, rounds: seq<Round>)
    requires BucketOk(b) && RoundsOrdered(b, rounds)
    ensures BucketOk(After(b, rounds))
    ensures After(b, rounds).sec.capacity == b.sec.capacity
    decreases |rounds|
  {
    if rounds != [] {
      AttemptOk(b, rounds[0].tokens, rounds[0].at);
      LevelsStayInRange(Attempt(b, rounds[0].tokens, rounds[0].at), rounds[1..]);
    }
  }

  lemma TakeNothing(l: Level)
    ensures Take(l, 0) == l
  {
  }

  lemma {:induction false} DrawsFeasible(b: Bucket, rounds: seq<Round>)
    requires BucketOk(b) && RoundsOrdered(b, rounds)
    ensures Feasible(b.sec, SecondDraws(b, rounds))
    ensures b.min.Some? ==> Feasible(b.min.value, MinuteDraws(b, rounds))
    decreases |rounds|
  {
    if rounds != [] {
      var n, r := rounds[0].tokens, rounds[0].at;
      var c := Attempt(b, n, r);
      AttemptOk(b, n, r);
      DrawsFeasible(c, rounds[1..]);
      RefillOk(b.sec, r.sec);
      TakeNothing(Refill(b.sec, r.sec));
      assert SecondDraws(b, rounds)[1..] == SecondDraws(c, rounds[1..]);
      assert MinuteDraws(b, rounds)[1..] == MinuteDraws(c, rounds[1..]);
      if b.min.Some? {
        RefillOk(b.min.value, r.min);
        TakeNothing(Refill(b.min.value, r.min));
      }
    }
  }

  /** The sliding-window bound of both levels, over every run and every window. */
  lemma SlidingWindow(b: Bucket, rounds: seq<Round>, from: real, to: real)
    requires BucketOk(b) && RoundsOrdered(b, rounds) && from <= to
    ensures WindowBounded(b.sec, SecondDraws(b, rounds), from, to)
    ensures b.min.Some? ==> WindowBounded(b.min.value, MinuteDraws(b, rounds), from, to)
  {
    DrawsFeasible(b, rounds);
    WindowBound(b.sec, SecondDraws(b, rounds), from, to);
    if b.min.Some? {
      WindowBound(b.min.value, MinuteDraws(b, rounds), from, to);
    }
  }

  // ---------- Runs of calls ----------

  /** A call of `acquire` with the readings of its rounds. */
  datatype Call = Call(tokens: int, readings: seq<Reading>)

  /** The rounds a call goes through: up to the first that grants. */
  ghost function RoundsOf(b: Bucket, n: int, readings: seq<Reading>): seq<Round>
    decreases |readings|
  {
    if readings == [] then []
    else [Round(n, readings[0])]
         + if Grants(b, n, readings[0]) then [] else RoundsOf(Attempt(b, n, readings[0]), n, readings[1..])
  }

  ghost function Total(draws: seq<Draw>): int {
    if draws == [] then 0 else draws[0].taken + Total(draws[1..])
  }

  /** A call is a run of rounds that draws its tokens exactly once if it returns, and
      nothing otherwise. */
  lemma {:induction false} CallIsRun(b: Bucket, n: int, readings: seq<Reading>)
    requires BucketOk(b) && n >= 1 && Ordered(b, readings)
    ensures var (c, o) := AfterRounds(b, n, readings);
            var rounds := RoundsOf(b, n, readings);
            && RoundsOrdered(b, rounds) && After(b, rounds) == c
            && Total(SecondDraws(b, rounds)) == if o.Granted? then n else 0
    decreases |readings|
  {
    if readings != [] {
      var c := Attempt(b, n, readings[0]);
      AttemptOk(b, n, readings[0]);
      var rounds := RoundsOf(b, n, readings);
      if Grants(b, n, readings[0]) {
        assert rounds[1..] == [] && SecondDraws(b, rounds)[1..] == [];
      } else {
        CallIsRun(c, n, readings[1..]);
        assert rounds[1..] == RoundsOf(c, n, readings[1..]);
        assert SecondDraws(b, rounds)[1..] == SecondDraws(c, rounds[1..]);
      }
    }
  }

  ghost predicate CallsOrdered(b: Bucket, calls: seq<Call>)
    decreases |calls|
  {
    calls == [] ||
    (Ordered(b, calls[0].readings) && CallsOrdered(AfterCall(b, calls[0]), calls[1..]))
  }

  ghost function AfterCall(b: Bucket, c: Call): Bucket {
    if c.tokens < 1 then b else AfterRounds(b, c.tokens, c.readings).0
  }

  ghost function RoundsOfCalls(b: Bucket, calls: seq<Call>): seq<Round>
    decreases |calls|
  {
    if calls == [] then []
    else (if calls[0].tokens < 1 then [] else RoundsOf(b, calls[0].tokens, calls[0].readings))
         + RoundsOfCalls(AfterCall(b, calls[0]), calls[1..])
  }

  lemma {:induction false} RunsAppend(b: Bucket, rounds: seq<Round>, more: seq<Round>)
    requires RoundsOrdered(b, rounds) && RoundsOrdered(After(b, rounds), more)
    ensures RoundsOrdered(b, rounds + more)
    decreases |rounds|
  {
    if rounds == [] {
      assert rounds + more == more;
    } else {
      RunsAppend(Attempt(b, rounds[0].tokens, rounds[0].at), rounds[1..], more);
      assert (rounds + more)[1..] == rounds[1..] + more;
    }
  }

  lemma {:induction false} CallsAreRuns(b: Bucket, calls: seq<Call>)
    requires BucketOk(b) && CallsOrdered(b, calls)
    ensures RoundsOrdered(b, RoundsOfCalls(b, calls))
    decreases |calls|
  {
    if calls != [] {
      var c := calls[0];
      if c.tokens < 1 {
        CallsAreRuns(b, calls[1..]);
        assert [] + RoundsOfCalls(b, calls[1..]) == RoundsOfCalls(b, calls[1..]);
      } else {
        var rounds := RoundsOf(b, c.tokens, c.readings);
        CallIsRun(b, c.tokens, c.readings);
        LevelsStayInRange(b, rounds);
        CallsAreRuns(AfterCall(b, c), calls[1..]);
        RunsAppend(b, rounds, RoundsOfCalls(AfterCall(b, c), calls[1..]));
      }
    }
  }

  /** Over every run of `acquire` calls, finished or still waiting, and every time window. */
  lemma AcquireWindow(b: Bucket, calls: seq<Call>, from: real, to: real)
    requires BucketOk(b) && CallsOrdered(b, calls) && from <= to
    ensures WindowBounded(b.sec, SecondDraws(b, RoundsOfCalls(b, calls)), from, to)
    ensures b.min.Some? ==> WindowBounded(b.min.value, MinuteDraws(b, RoundsOfCalls(b, calls)), from, to)
  {
    CallsAreRuns(b, calls);
    SlidingWindow(b, RoundsOfCalls(b, calls), from, to);
  }

  // ---------- Progress ----------

  predicate Fits(b: Bucket, n: int) {
    n <= b.sec.capacity && (b.min.Some? ==> n <= b.min.value.capacity)
  }

  lemma SameOrder(rate: real, x: real, y: real)
    requires rate > 0.0
    ensures x * rate >= y * rate <==> x >= y
  {
    if x >= y {
      YieldNotNegative(rate, y, x);
      assert x * rate == y * rate + (x - y) * rate;
    } else {
      assert (y - x) * rate > 0.0;
      assert y * rate == x * rate + (y - x) * rate;
    }
  }

  lemma WaitEnds(l: Level, missing: real, t: real)
    requires l.rate > 0.0
    ensures Gained(l, t) >= missing <==> t - l.last >= missing / l.rate
  {
    var w := missing / l.rate;
    assert w * l.rate == missing;
    SameOrder(l.rate, t - l.last, w);
  }

  /** A level that has been refilled at `l.last` can pay at `t` exactly when the wait is over. */
  lemma PayableAfterWait(l: Level, n: int, t: real)
    requires LevelOk(l) && n <= l.capacity && t >= l.last
    ensures Refill(l, t).tokens >= n as real <==> t >= l.last + Wait(l, n)
  {
    WaitEnds(l, n as real - l.tokens, t);
    YieldNotNegative(l.rate, l.last, t);
  }

  lemma RefillBothOk(b: Bucket, r: Reading)
    requires BucketOk(b) && NotBefore(b, r)
    ensures BucketOk(RefillBoth(b, r))
  {
    RefillOk(b.sec, r.sec);
    if b.min.Some? {
      RefillOk(b.min.value, r.min);
    }
  }

  /** With a sleep of at least the computed wait, the second round grants. */
  lemma SecondRoundGrants(b: Bucket, n: int, r: Reading, s: Reading)
    requires BucketOk(b) && NotBefore(b, r) && n >= 1 && Fits(b, n)
    requires r.min + WaitBoth(RefillBoth(b, r), n) <= s.sec <= s.min
    ensures Grants(b, n, r) || Grants(Attempt(b, n, r), n, s)
  {
    var full := RefillBoth(b, r);
    RefillBothOk(b, r);
    PayableAfterWait(full.sec, n, s.sec);
    if full.min.Some? {
      PayableAfterWait(full.min.value, n, s.min);
    }
  }

  /** When both clocks read the same, the computed wait ends at the very first instant at
      which both levels can pay. */
  lemma EarliestInstant(b: Bucket, n: int, now: real, t: real)
    requires BucketOk(b) && NotBefore(b, Reading(now, now)) && n >= 1 && Fits(b, n) && t >= now
    ensures Grants(RefillBoth(b, Reading(now, now)), n, Reading(t, t))
            <==> t >= now + WaitBoth(RefillBoth(b, Reading(now, now)), n)
  {
    var full := RefillBoth(b, Reading(now, now));
    RefillBothOk(b, Reading(now, now));
    PayableAfterWait(full.sec, n, t);
    if full.min.Some? {
      PayableAfterWait(full.min.value, n, t);
    }
  }

  /** A request above a capacity never gets through, whatever the readings. */
  lemma {:induction false} TooLargeNeverGranted(b: Bucket, n: int, readings: seq<Reading>)
    requires !Fits(b, n)
    ensures AfterRounds(b, n, readings).1 == Waiting
    decreases |readings|
  {
    if readings != [] {
      TooLargeNeverGranted(Attempt(b, n, readings[0]), n, readings[1..]);
    }
  }

  /** `acquire` returns, by its second round, exactly when the request fits both levels. */
  lemma AcquireReturns(b: Bucket, n: int, readings: seq<Reading>)
    requires BucketOk(b) && n >= 1 && |readings| >= 2 && NotBefore(b, readings[0])
    requires readings[0].min + WaitBoth(RefillBoth(b, readings[0]), n) <= readings[1].sec <= readings[1].min
    ensures AfterRounds(b, n, readings).1.Granted? <==> Fits(b, n)
    ensures Fits(b, n) ==> AfterRounds(b, n, readings).1.round <= 1
  {
    if Fits(b, n) {
      SecondRoundGrants(b, n, readings[0], readings[1]);
      assert readings[1..][0] == readings[1];
    } else {
      TooLargeNeverGranted(b, n, readings);
    }
  }

  // ---------- Policies that are refused ----------

  /** A policy is accepted exactly with positive rates and bursts of at least one, and the
      first of its fields that is not says which error it is. */
  lemma FaultMeans(p: Policy)
    ensures var minuteOk := p.requestsPerMinute.Some? ==> p.requestsPerMinute.value > 0.0;
            var burstOk := p.burstPerMinute.Some? ==> p.burstPerMinute.value >= 1;
            && (PolicyFault(p) == Some(BadRate) <==> p.requestsPerSecond <= 0.0)
            && (PolicyFault(p) == Some(BadBurst) <==> p.requestsPerSecond > 0.0 && p.burstCapacity < 1)
            && (PolicyFault(p) == Some(BadMinuteRate)
                <==> p.requestsPerSecond > 0.0 && p.burstCapacity >= 1 && !minuteOk)
            && (PolicyFault(p) == None
                <==> p.requestsPerSecond > 0.0 && p.burstCapacity >= 1 && minuteOk && burstOk)
  {
  }
}
