/** Where the tokens of a bucket go (ota_core/http/client.py): what is drawn, what time yields
    and what spills over a full level, and how a burst is served. */
module RateAccounts {
  import opened Outcomes
  import opened RateLimit

  // ---------- Conservation ----------

  /** What a refill at `now` loses because the level is full. */
  ghost function Spilled(l: Level, now: real): real {
    Upper(0.0, l.tokens + Yield(l.rate, l.last, now) - l.capacity as real)
  }

  ghost function SpilledIn(l: Level, draws: seq<Draw>): real
    decreases |draws|
  {
    if draws == [] then 0.0
    else Spilled(l, draws[0].now) + SpilledIn(Take(Refill(l, draws[0].now), draws[0].taken), draws[1..])
  }

  /** The level after the draws. */
  ghost function Drained(l: Level, draws: seq<Draw>): Level
    decreases |draws|
  {
    if draws == [] then l else Drained(Take(Refill(l, draws[0].now), draws[0].taken), draws[1..])
  }

  lemma DrawConserves(l: Level, d: Draw)
    ensures var rest := Take(Refill(l, d.now), d.taken);
            && rest.tokens == l.tokens + Yield(l.rate, l.last, d.now) - Spilled(l, d.now) - d.taken as real
            && rest.last == d.now && rest.rate == l.rate && rest.capacity == l.capacity
  {
  }

  lemma NoTimeNoYield(rate: real, t: real)
    ensures Yield(rate, t, t) == 0.0
  {
  }

  /** Tokens at the end are the tokens at the start, plus what time yielded, minus what was
      drawn and what spilled over. */
  lemma {:induction false} TokensConserved(l: Level, draws: seq<Draw>)
    ensures var end := Drained(l, draws);
            && end.rate == l.rate && end.capacity == l.capacity
            && end.tokens == l.tokens + Yield(l.rate, l.last, end.last) - Total(draws) as real - SpilledIn(l, draws)
    decreases |draws|
  {
    if draws == [] {
      NoTimeNoYield(l.rate, l.last);
    } else {
      var next := Take(Refill(l, draws[0].now), draws[0].taken);
      DrawConserves(l, draws[0]);
      TokensConserved(next, draws[1..]);
      YieldSplits(l.rate, l.last, draws[0].now, Drained(l, draws).last);
    }
  }

  /** Nothing spills exactly while no refill finds the level over its capacity. */
  ghost predicate NeverFull(l: Level, draws: seq<Draw>)
    decreases |draws|
  {
    draws == [] ||
    (l.tokens + Yield(l.rate, l.last, draws[0].now) <= l.capacity as real
     && NeverFull(Take(Refill(l, draws[0].now), draws[0].taken), draws[1..]))
  }

  lemma {:induction false} SpillsIffFull(l: Level, draws: seq<Draw>)
    ensures SpilledIn(l, draws) >= 0.0
    ensures SpilledIn(l, draws) == 0.0 <==> NeverFull(l, draws)
    decreases |draws|
  {
    if draws != [] {
      SpillsIffFull(Take(Refill(l, draws[0].now), draws[0].taken), draws[1..]);
    }
  }

  // ---------- Runs of rounds and calls ----------

  /** A run of rounds leaves both levels as its draws do. */
  lemma {:induction false} RunDrains(b: Bucket, rounds: seq<Round>)
    ensures After(b, rounds).sec == Drained(b.sec, SecondDraws(b, rounds))
    ensures After(b, rounds).min.Some? <==> b.min.Some?
    ensures b.min.Some? ==> After(b, rounds).min.value == Drained(b.min.value, MinuteDraws(b, rounds))
    ensures Total(MinuteDraws(b, rounds)) == Total(SecondDraws(b, rounds))
    decreases |rounds|
  {
    if rounds != [] {
      var c := Attempt(b, rounds[0].tokens, rounds[0].at);
      RunDrains(c, rounds[1..]);
      TakeNothing(Refill(b.sec, rounds[0].at.sec));
      if b.min.Some? {
        TakeNothing(Refill(b.min.value, rounds[0].at.min));
      }
      assert SecondDraws(b, rounds)[1..] == SecondDraws(c, rounds[1..]);
      assert MinuteDraws(b, rounds)[1..] == MinuteDraws(c, rounds[1..]);
    }
  }

  /** The draws of the rounds that a call goes through. */
  ghost function CallDraws(b: Bucket, n: int, readings: seq<Reading>): seq<Draw> {
    SecondDraws(b, RoundsOf(b, n, readings))
  }

  ghost function CallMinuteDraws(b: Bucket, n: int, readings: seq<Reading>): seq<Draw> {
    MinuteDraws(b, RoundsOf(b, n, readings))
  }

  /** A call costs each level exactly its tokens if it returns and nothing otherwise, apart
      from what time yielded and what spilled over meanwhile. */
  lemma AcquireConserves(b: Bucket, n: int, readings: seq<Reading>)
    requires BucketOk(b) && n >= 1 && Ordered(b, readings)
    ensures var (c, o) := AfterRounds(b, n, readings);
            var cost := if o.Granted? then n else 0;
            && c.sec.tokens == b.sec.tokens + Yield(b.sec.rate, b.sec.last, c.sec.last) - cost as real
                               - SpilledIn(b.sec, CallDraws(b, n, readings))
            && (c.min.Some? <==> b.min.Some?)
            && (b.min.Some? ==>
                  var l := b.min.value;
                  c.min.value.tokens == l.tokens + Yield(l.rate, l.last, c.min.value.last) - cost as real
                                        - SpilledIn(l, CallMinuteDraws(b, n, readings)))
  {
    CallIsRun(b, n, readings);
    RunDrains(b, RoundsOf(b, n, readings));
    TokensConserved(b.sec, CallDraws(b, n, readings));
    if b.min.Some? {
      TokensConserved(b.min.value, CallMinuteDraws(b, n, readings));
    }
  }

  // ---------- Bursts ----------

  ghost function Sum(requests: seq<nat>): nat {
    if requests == [] then 0 else requests[0] + Sum(requests[1..])
  }

  ghost predicate RefilledAt(b: Bucket, now: real) {
    b.sec.last == now && (b.min.Some? ==> b.min.value.last == now)
  }

  /** Each request in turn is granted by its first round at `now`. */
  ghost predicate AllGranted(b: Bucket, requests: seq<nat>, now: real)
    decreases |requests|
  {
    requests == [] ||
    var (c, o) := AfterRounds(b, requests[0], [Reading(now, now)]);
    o == Granted(0) && AllGranted(c, requests[1..], now)
  }

  lemma RefillAgain(l: Level, now: real)
    requires l.last == now && l.tokens <= l.capacity as real
    ensures Refill(l, now) == l
  {
    NoTimeNoYield(l.rate, now);
  }

  lemma BothRefilledAgain(b: Bucket, now: real)
    requires BucketOk(b) && RefilledAt(b, now)
    ensures RefillBoth(b, Reading(now, now)) == b
  {
    RefillAgain(b.sec, now);
    if b.min.Some? {
      RefillAgain(b.min.value, now);
    }
  }

  /** At the instant of a refill a request is granted exactly if both levels hold it, and
      costs each of them exactly its tokens. */
  lemma GrantAtOnce(b: Bucket, n: nat, now: real)
    requires BucketOk(b) && RefilledAt(b, now)
    ensures var (c, o) := AfterRounds(b, n, [Reading(now, now)]);
            && (o == Granted(0) <==> CanPay(b, n))
            && (o == Granted(0) ==>
                  && RefilledAt(c, now) && BucketOk(c)
                  && c.sec.tokens == b.sec.tokens - n as real
                  && (c.min.Some? <==> b.min.Some?)
                  && (b.min.Some? ==> c.min.value.tokens == b.min.value.tokens - n as real))
  {
    BothRefilledAgain(b, now);
  }

  /** A burst of requests is granted at one instant, request by request, exactly if both
      levels hold all of it. */
  lemma {:induction false} BurstGranted(b: Bucket, requests: seq<nat>, now: real)
    requires BucketOk(b) && RefilledAt(b, now)
    ensures AllGranted(b, requests, now) <==> CanPay(b, Sum(requests))
    decreases |requests|
  {
    if requests != [] {
      GrantAtOnce(b, requests[0], now);
      var (c, o) := AfterRounds(b, requests[0], [Reading(now, now)]);
      if o == Granted(0) {
        BurstGranted(c, requests[1..], now);
      }
    }
  }
}
