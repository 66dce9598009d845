/** The retry loop of HttpClient.request (ota_core/http/client.py).  Upstream outcomes,
    the random draw and the clock are inputs, indexed by attempt. */
module Retry {
  import opened Outcomes

  /** A Retry-After header after parsing: seconds, a date (as seconds on the clock), or neither. */
  datatype Header = NoHeader | Seconds(value: real) | Date(when: real) | Unreadable

  datatype Upstream =
    | NetworkFault                              // httpx.NetworkError or TimeoutException
    | OtherFault                                // any other exception: passes through
    | Response(status: int, retryAfter: Header)

  datatype Config = Config(
    maxRetries: int,
    base: real,
    cap: real,
    retryStatuses: set<int>,
    allowed: Option<string -> bool>)

  datatype Outcome =
    | Blocked
    | Returned(attempt: nat, status: int)
    | Raised(attempt: nat)
    | Exhausted(attempts: int, lastStatus: Option<int>)
    | ExhaustedAfterLoop(attempts: int)

  datatype Action = AcquireToken | Send(attempt: nat) | Sleep(seconds: real)

  function RetryAfter(h: Header, now: real): Option<real> {
    match h
    case Seconds(v) => Some(if v < 0.0 then 0.0 else v)
    case Date(when) => Some(if when - now < 0.0 then 0.0 else when - now)
    case _ => None
  }

  function Pow2(n: nat): (p: real)
    ensures p >= 1.0
  {
    if n == 0 then 1.0 else 2.0 * Pow2(n - 1)
  }

  /** The ceiling of the exponential back-off before its random draw. */
  function Ceiling(c: Config, attempt: nat): real {
    var exp := c.base * Pow2(attempt);
    if exp < c.cap then exp else c.cap
  }

  /** `random.uniform(0, high)` with the draw given as a fraction. */
  function Uniform(draw: real, high: real): (r: real)
    ensures 0.0 <= draw <= 1.0 && high >= 0.0 ==> 0.0 <= r <= high
  {
    DrawBound(draw, high);
    draw * high
  }

  lemma DrawBound(draw: real, high: real)
    ensures 0.0 <= draw <= 1.0 && high >= 0.0 ==> 0.0 <= draw * high <= high
  {
    if 0.0 <= draw <= 1.0 && high >= 0.0 {
      assert draw * high <= 1.0 * high;
    }
  }

  function Backoff(c: Config, attempt: nat, draw: real): real {
    Uniform(draw, Ceiling(c, attempt))
  }

  function Delay(c: Config, u: Upstream, attempt: nat, draw: real, now: real): real {
    if u.Response? && RetryAfter(u.retryAfter, now).Some? then RetryAfter(u.retryAfter, now).value
    else Backoff(c, attempt, draw)
  }

  predicate Retryable(c: Config, u: Upstream) {
    u.NetworkFault? || (u.Response? && u.status in c.retryStatuses)
  }

  /** Everything an attempt does up to the wire. */
  function Sending(limited: bool, attempt: nat): seq<Action> {
    (if limited then [AcquireToken] else []) + [Send(attempt)]
  }

  /** The actions of `n` attempts that were each followed by a sleep. */
  function Rounds(limited: bool, sleeps: seq<real>): seq<Action> {
    if sleeps == [] then []
    else Rounds(limited, sleeps[..|sleeps| - 1])
         + Sending(limited, |sleeps| - 1) + [Sleep(sleeps[|sleeps| - 1])]
  }

  /** Every sleep followed a retryable outcome and lasted its delay. */
  ghost predicate Slept(c: Config, upstream: nat -> Upstream, draw: nat -> real, now: nat -> real, sleeps: seq<real>) {
    forall k: nat :: k < |sleeps| ==>
                       Retryable(c, upstream(k)) && sleeps[k] == Delay(c, upstream(k), k, draw(k), now(k))
  }

  ghost predicate Sensible(c: Config, draw: nat -> real) {
    c.base >= 0.0 && c.cap >= 0.0 && forall k: nat :: 0.0 <= draw(k) <= 1.0
  }

  /** None of the first `n` outcomes carries a Retry-After that can be read. */
  ghost predicate NoRetryAfter(upstream: nat -> Upstream, now: nat -> real, n: nat) {
    forall k: nat :: k < n && upstream(k).Response? ==> RetryAfter(upstream(k).retryAfter, now(k)).None?
  }

  /** `n` sleeps last at most n caps, and at most base * (2^n - 1). */
  ghost predicate Brief(c: Config, sleeps: seq<real>) {
    0.0 <= Sum(sleeps) <= |sleeps| as real * c.cap && Sum(sleeps) <= c.base * (Pow2(|sleeps|) - 1.0)
  }

  method Request(c: Config, host: string, limited: bool, upstream: nat -> Upstream, draw: nat -> real, now: nat -> real)
    returns (r: Outcome, actions: seq<Action>, sleeps: seq<real>)
    ensures r.Blocked? <==> c.allowed.Some? && !c.allowed.value(host)
    ensures r.Blocked? || r.ExhaustedAfterLoop? ==> actions == [] && sleeps == []
    ensures r.ExhaustedAfterLoop? <==> !r.Blocked? && c.maxRetries < 0
    // the last attempt ends the call, every earlier one was retryable
    ensures r.Returned? || r.Raised? || r.Exhausted? ==>
              && |sleeps| <= c.maxRetries
              && actions == Rounds(limited, sleeps) + Sending(limited, |sleeps|)
              && Sends(actions) == |sleeps| + 1
    ensures Slept(c, upstream, draw, now, sleeps)
    ensures Sends(actions) <= Max(c.maxRetries + 1, 0)
    ensures Sensible(c, draw) && NoRetryAfter(upstream, now, |sleeps|) ==> Brief(c, sleeps)
    ensures r.Returned? ==>
              && r.attempt == |sleeps| && !Retryable(c, upstream(r.attempt))
              && upstream(r.attempt).Response? && r.status == upstream(r.attempt).status
    ensures r.Raised? ==> r.attempt == |sleeps| && upstream(r.attempt).OtherFault?
    ensures r.Exhausted? ==>
              && r.attempts == |sleeps| + 1 == c.maxRetries + 1 && Retryable(c, upstream(|sleeps|))
              && r.lastStatus == if upstream(|sleeps|).Response? then Some(upstream(|sleeps|).status) else None
  {
    actions, sleeps := [], [];
    SleepsAreBrief(c, upstream, draw, now, sleeps);
    if c.allowed.Some? {
      if !c.allowed.value(host) {
        return Blocked, actions, sleeps;
      }
    }
    var attempt: nat := 0;
    while attempt < c.maxRetries + 1
      invariant |sleeps| == attempt && actions == Rounds(limited, sleeps)
      invariant c.maxRetries >= 0 ==> attempt <= c.maxRetries
      invariant c.maxRetries < 0 ==> attempt == 0
      invariant Slept(c, upstream, draw, now, sleeps)
      invariant Sensible(c, draw) && NoRetryAfter(upstream, now, |sleeps|) ==> Brief(c, sleeps)
      decreases c.maxRetries + 1 - attempt
    {
      AttemptsCounted(limited, sleeps);
      actions := actions + Sending(limited, attempt);
      var u := upstream(attempt);
      if u.OtherFault? {
        return Raised(attempt), actions, sleeps;
      }
      var seconds: real;
      if u.NetworkFault? {
        if attempt >= c.maxRetries {
          return Exhausted(attempt + 1, None), actions, sleeps;
        }
        seconds := Backoff(c, attempt, draw(attempt));
      } else {
        if u.status !in c.retryStatuses {
          return Returned(attempt, u.status), actions, sleeps;
        }
        if attempt >= c.maxRetries {
          return Exhausted(attempt + 1, Some(u.status)), actions, sleeps;
        }
        var after := RetryAfter(u.retryAfter, now(attempt));
        seconds := if after.Some? then after.value else Backoff(c, attempt, draw(attempt));
      }
      RoundsStep(limited, sleeps, seconds);
      actions := actions + [Sleep(seconds)];
      sleeps := sleeps + [seconds];
      SleepsAreBrief(c, upstream, draw, now, sleeps);
      attempt := attempt + 1;
    }
    return ExhaustedAfterLoop(c.maxRetries + 1), actions, sleeps;
  }

  lemma RoundsStep(limited: bool, sleeps: seq<real>, seconds: real)
    ensures Rounds(limited, sleeps + [seconds])
            == Rounds(limited, sleeps) + Sending(limited, |sleeps|) + [Sleep(seconds)]
  {
    assert (sleeps + [seconds])[..|sleeps|] == sleeps;
  }

  // ---------- What the actions amount to ----------

  function Sends(actions: seq<Action>): nat {
    if actions == [] then 0
    else Sends(actions[..|actions| - 1]) + if actions[|actions| - 1].Send? then 1 else 0
  }

  lemma {:induction false} SendsAppend(a: seq<Action>, b: seq<Action>)
    ensures Sends(a + b) == Sends(a) + Sends(b)
  {
    if b == [] {
      assert a + b == a;
    } else {
      SendsAppend(a, b[..|b| - 1]);
      assert (a + b)[..|a + b| - 1] == a + b[..|b| - 1];
    }
  }

  lemma SendingSends(limited: bool, attempt: nat)
    ensures Sends(Sending(limited, attempt)) == 1
  {
    var s := Sending(limited, attempt);
    assert s[..|s| - 1] == if limited then [AcquireToken] else [];
    assert Sends([AcquireToken]) == 0 by {
      assert [AcquireToken][..0] == [];
    }
  }

  /** A call that sleeps n times sends n + 1 requests, hence at most maxRetries + 1. */
  lemma {:induction false} AttemptsCounted(limited: bool, sleeps: seq<real>)
    ensures Sends(Rounds(limited, sleeps)) == |sleeps|
    ensures Sends(Rounds(limited, sleeps) + Sending(limited, |sleeps|)) == |sleeps| + 1
  {
    if sleeps != [] {
      var init, s := sleeps[..|sleeps| - 1], Sending(limited, |sleeps| - 1);
      AttemptsCounted(limited, init);
      SendingSends(limited, |sleeps| - 1);
      SendsAppend(Rounds(limited, init), s);
      SendsAppend(Rounds(limited, init) + s, [Sleep(sleeps[|sleeps| - 1])]);
      assert [Sleep(sleeps[|sleeps| - 1])][..0] == [];
    }
    SendingSends(limited, |sleeps|);
    SendsAppend(Rounds(limited, sleeps), Sending(limited, |sleeps|));
  }

  // ---------- How long it sleeps ----------

  function Sum(s: seq<real>): real {
    if s == [] then 0.0 else Sum(s[..|s| - 1]) + s[|s| - 1]
  }

  lemma NotNegative(a: real, b: real)
    requires a >= 0.0 && b >= 0.0
    ensures a * b >= 0.0
  {
  }

  lemma CeilingBound(c: Config, k: nat)
    requires c.base >= 0.0 && c.cap >= 0.0
    ensures 0.0 <= Ceiling(c, k) <= c.cap && Ceiling(c, k) <= c.base * Pow2(k)
  {
    NotNegative(c.base, Pow2(k));
  }

  lemma BackoffBound(c: Config, k: nat, draw: real)
    requires c.base >= 0.0 && c.cap >= 0.0 && 0.0 <= draw <= 1.0
    ensures 0.0 <= Backoff(c, k, draw) <= Ceiling(c, k)
  {
    CeilingBound(c, k);
  }

  lemma Doubling(b: real, p: real)
    ensures b * (2.0 * p - 1.0) == b * (p - 1.0) + b * p
  {
  }

  lemma OneMore(n: nat, cap: real)
    ensures (n + 1) as real * cap == n as real * cap + cap
  {
  }

  lemma {:induction false} SumWithinCap(sleeps: seq<real>, cap: real)
    requires forall k :: 0 <= k < |sleeps| ==> 0.0 <= sleeps[k] <= cap
    ensures 0.0 <= Sum(sleeps) <= |sleeps| as real * cap
  {
    if sleeps != [] {
      SumWithinCap(sleeps[..|sleeps| - 1], cap);
      OneMore(|sleeps| - 1, cap);
    }
  }

  /** The ceilings of n doubling back-offs. */
  ghost function Geometric(base: real, n: nat): real {
    if n == 0 then 0.0 else Geometric(base, n - 1) + base * Pow2(n - 1)
  }

  lemma {:induction false} GeometricSum(base: real, n: nat, p: real)
    requires p == Pow2(n)
    ensures Geometric(base, n) == base * (p - 1.0)
  {
    if n > 0 {
      GeometricSum(base, n - 1, Pow2(n - 1));
      Doubling(base, Pow2(n - 1));
    }
  }

  /** Each sleep lies between zero and a ceiling that the cap and the doubling bound. */
  lemma {:induction false} SumWithinGeometric(c: Config, sleeps: seq<real>)
    requires forall k: nat :: k < |sleeps| ==> sleeps[k] <= Ceiling(c, k)
    requires c.base >= 0.0 && c.cap >= 0.0
    ensures Sum(sleeps) <= Geometric(c.base, |sleeps|)
  {
    if sleeps != [] {
      var n := |sleeps| - 1;
      SumWithinGeometric(c, sleeps[..n]);
      CeilingBound(c, n);
    }
  }

  lemma SleepBound(c: Config, upstream: nat -> Upstream, draw: nat -> real, now: nat -> real, sleeps: seq<real>, k: nat)
    requires Slept(c, upstream, draw, now, sleeps) && Sensible(c, draw) && NoRetryAfter(upstream, now, |sleeps|)
    requires k < |sleeps|
    ensures 0.0 <= sleeps[k] <= Ceiling(c, k) <= c.cap
  {
    CeilingBound(c, k);
    BackoffBound(c, k, draw(k));
  }

  /** A call that meets no Retry-After sleeps briefly. */
  lemma SleepsAreBrief(c: Config, upstream: nat -> Upstream, draw: nat -> real, now: nat -> real, sleeps: seq<real>)
    requires Slept(c, upstream, draw, now, sleeps)
    ensures Sensible(c, draw) && NoRetryAfter(upstream, now, |sleeps|) ==> Brief(c, sleeps)
  {
    if Sensible(c, draw) && NoRetryAfter(upstream, now, |sleeps|) {
      forall k: nat | k < |sleeps| ensures 0.0 <= sleeps[k] <= Ceiling(c, k) <= c.cap {
        SleepBound(c, upstream, draw, now, sleeps, k);
      }
      SumsAreBrief(c, sleeps);
    }
  }

  lemma SumsAreBrief(c: Config, sleeps: seq<real>)
    requires c.base >= 0.0 && c.cap >= 0.0
    requires forall k: nat :: k < |sleeps| ==> 0.0 <= sleeps[k] <= Ceiling(c, k) <= c.cap
    ensures Brief(c, sleeps)
  {
    SumWithinCap(sleeps, c.cap);
    SumWithinGeometric(c, sleeps);
    GeometricSum(c.base, |sleeps|, Pow2(|sleeps|));
  }

  /** Every sleep is non-negative, also one taken from a date in the past. */
  lemma DelayNotNegative(c: Config, u: Upstream, attempt: nat, draw: real, now: real)
    requires c.base >= 0.0 && c.cap >= 0.0 && 0.0 <= draw <= 1.0
    ensures Delay(c, u, attempt, draw, now) >= 0.0
  {
    BackoffBound(c, attempt, draw);
  }

  /** A readable Retry-After decides the delay: its seconds, or the time left to its date, and
      never less than zero.  Otherwise the delay is the drawn fraction of the ceiling. */
  lemma DelayMeans(c: Config, u: Upstream, attempt: nat, draw: real, now: real)
    ensures var d := Delay(c, u, attempt, draw, now);
            if u.Response? && u.retryAfter.Seconds? then
              (u.retryAfter.value >= 0.0 ==> d == u.retryAfter.value) && (u.retryAfter.value < 0.0 ==> d == 0.0)
            else if u.Response? && u.retryAfter.Date? then
              && (u.retryAfter.when >= now ==> d == u.retryAfter.when - now)
              && (u.retryAfter.when < now ==> d == 0.0)
            else d == draw * Ceiling(c, attempt)
  {
  }

  /** The ceiling is the cap or, if that is less, the base doubled with every attempt. */
  lemma CeilingMeans(c: Config, k: nat)
    ensures Ceiling(c, k) <= c.cap && Ceiling(c, k) <= c.base * Pow2(k)
    ensures Ceiling(c, k) == c.cap || Ceiling(c, k) == c.base * Pow2(k)
    ensures Pow2(0) == 1.0 && Pow2(k + 1) == Pow2(k) + Pow2(k)
  {
  }

  /** Exactly network faults, timeouts and the configured statuses are tried again. */
  lemma RetryableMeans(c: Config, status: int, header: Header)
    ensures Retryable(c, NetworkFault) && !Retryable(c, OtherFault)
    ensures Retryable(c, Response(status, header)) <==> status in c.retryStatuses
  {
  }
}
