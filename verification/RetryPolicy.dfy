/** The exponential-backoff decorator of app/integrations/retry/policy.py, and its composition
    with the circuit breaker as app/integrations/oauth/service.py:56-62 nests them.

    What the wrapped function does at its n-th call is an arbitrary function of n. */
module RetryPolicy {
  import opened CircuitBreaking

  function Power(x: real, n: nat): real {
    if n == 0 then 1.0 else x * Power(x, n - 1)
  }

  function Sum(xs: seq<real>): real {
    if xs == [] then 0.0 else Sum(xs[..|xs| - 1]) + xs[|xs| - 1]
  }

  /** The wrapper gives up retrying: a value, an open breaker, or an exception it does not expect. */
  predicate Final<T>(o: Outcome<T>) {
    !(o.Raised? && o.error.Expected?)
  }

  function AllowedCalls(maxRetries: int): nat {
    if maxRetries < 0 then 1 else maxRetries + 1
  }

  /** The n-th delay: the code multiplies the previous one. */
  function Delay(initialDelay: real, backoffFactor: real, n: nat): real {
    if n == 0 then initialDelay else Delay(initialDelay, backoffFactor, n - 1) * backoffFactor
  }

  ghost predicate BackoffSchedule(sleeps: seq<real>, initialDelay: real, backoffFactor: real) {
    forall i | 0 <= i < |sleeps| :: sleeps[i] == Delay(initialDelay, backoffFactor, i)
  }

  /** `calls` is where the wrapper stops: at the first final outcome, or when the calls run out. */
  ghost predicate StopsAfter<T>(calls: nat, outcome: nat -> Outcome<T>, maxRetries: int) {
    && 1 <= calls <= AllowedCalls(maxRetries)
    && (forall i | 0 <= i < calls - 1 :: !Final(outcome(i)))
    && (Final(outcome(calls - 1)) || calls == AllowedCalls(maxRetries))
  }

  method Retry<T>(
    outcome: nat -> Outcome<T>, maxRetries: int := 3, initialDelay: real := 1.0, backoffFactor: real := 2.0)
    returns (result: Outcome<T>, calls: nat, sleeps: seq<real>)
    ensures StopsAfter(calls, outcome, maxRetries)
    ensures result == outcome(calls - 1)
    ensures |sleeps| == calls - 1
    ensures BackoffSchedule(sleeps, initialDelay, backoffFactor)
    ensures forall i | 0 <= i < calls - 1 :: outcome(i).Raised? && outcome(i).error.Expected?
    ensures || result.Returned? || result.error == BreakerOpen || result.error.Unexpected?
            || calls == if maxRetries > 0 then maxRetries + 1 else 1
  {
    var retries := 0;
    var delay := initialDelay;
    calls, sleeps := 0, [];
    while true
      invariant 0 <= retries == calls == |sleeps| < AllowedCalls(maxRetries)
      invariant forall i | 0 <= i < calls :: !Final(outcome(i))
      invariant delay == Delay(initialDelay, backoffFactor, retries)
      invariant BackoffSchedule(sleeps, initialDelay, backoffFactor)
      decreases maxRetries - retries
    {
      result := outcome(calls);
      calls := calls + 1;
      match result {
        case Returned(_) => break;
        case Raised(Unexpected(_)) => break;
        case Raised(BreakerOpen) => break;
        case Raised(Expected(_)) =>
          retries := retries + 1;
          if retries > maxRetries {
            break;
          }
          sleeps := sleeps + [delay];
          delay := delay * backoffFactor;
      }
    }
  }

  /** The wrapper retries nothing but expected exceptions: at the first other outcome, if its calls last
      that long, it stops, without a sleep after it. */
  lemma StopsAtFirstOther<T>(calls: nat, outcome: nat -> Outcome<T>, maxRetries: int, i: nat)
    requires StopsAfter(calls, outcome, maxRetries)
    requires outcome(i).Returned? || outcome(i).error == BreakerOpen || outcome(i).error.Unexpected?
    requires forall j | 0 <= j < i :: outcome(j).Raised? && outcome(j).error.Expected?
    ensures calls == if i == 0 || i <= maxRetries then i + 1 else if maxRetries > 0 then maxRetries + 1 else 1
  {
  }

  /** Where the wrapper stops is determined by the outcomes: no two answers fit the contract. */
  lemma StopIsUnique<T>(c: nat, d: nat, outcome: nat -> Outcome<T>, maxRetries: int)
    requires StopsAfter(c, outcome, maxRetries) && StopsAfter(d, outcome, maxRetries)
    ensures c == d
  {
    var first := outcome(if c < d then c - 1 else d - 1);
  }

  lemma {:induction false} DelayIsGeometric(initialDelay: real, factor: real, n: nat)
    ensures Delay(initialDelay, factor, n) == initialDelay * Power(factor, n)
  {
    if n > 0 {
      DelayIsGeometric(initialDelay, factor, n - 1);
      var p := Power(factor, n - 1);
      assert initialDelay * p * factor == initialDelay * (factor * p);
    }
  }

  lemma {:induction false} SleepsTelescope(sleeps: seq<real>, initialDelay: real, factor: real)
    requires BackoffSchedule(sleeps, initialDelay, factor)
    ensures Sum(sleeps) * (factor - 1.0) == Delay(initialDelay, factor, |sleeps|) - initialDelay
  {
    if sleeps != [] {
      var n := |sleeps| - 1;
      SleepsTelescope(sleeps[..n], initialDelay, factor);
      Distribute(Sum(sleeps[..n]), sleeps[n], factor);
    }
  }

  lemma Distribute(s: real, d: real, factor: real)
    ensures (s + d) * (factor - 1.0) == s * (factor - 1.0) + d * factor - d
  {
  }

  lemma {:induction false} EqualSleeps(sleeps: seq<real>, initialDelay: real)
    requires BackoffSchedule(sleeps, initialDelay, 1.0)
    ensures Sum(sleeps) == |sleeps| as real * initialDelay
  {
    if sleeps != [] {
      var n := |sleeps| - 1;
      EqualSleeps(sleeps[..n], initialDelay);
      ConstantDelay(initialDelay, n);
      assert (n + 1) as real * initialDelay == n as real * initialDelay + initialDelay;
    }
  }

  lemma {:induction false} ConstantDelay(initialDelay: real, n: nat)
    ensures Delay(initialDelay, 1.0, n) == initialDelay
  {
    if n > 0 {
      ConstantDelay(initialDelay, n - 1);
    }
  }

  /** The total time slept over k sleeps, in closed form: d * (f^k - 1) / (f - 1), with the
      division cleared, and d * k when the factor is one. */
  lemma TotalSleep(sleeps: seq<real>, initialDelay: real, factor: real)
    requires BackoffSchedule(sleeps, initialDelay, factor)
    ensures Sum(sleeps) * (factor - 1.0) == initialDelay * (Power(factor, |sleeps|) - 1.0)
    ensures factor == 1.0 ==> Sum(sleeps) == |sleeps| as real * initialDelay
  {
    SleepsTelescope(sleeps, initialDelay, factor);
    DelayIsGeometric(initialDelay, factor, |sleeps|);
    if factor == 1.0 {
      EqualSleeps(sleeps, initialDelay);
    }
  }

  // ----- Composition: retried breaker calls through an outage

  /** One pass through the breaker while the provider is down: when it entered, and when the
      provider's failure came back if it was let through. */
  datatype Attempt = Attempt(start: real, end: real)

  function FailingCall(b: Breaker, a: Attempt): Breaker {
    if Admits(b, a.start) then Fail(Observe(b, a.start), a.end) else Observe(b, a.start)
  }

  function Outage(b: Breaker, attempts: seq<Attempt>): Breaker {
    if attempts == [] then b
    else FailingCall(Outage(b, attempts[..|attempts| - 1]), attempts[|attempts| - 1])
  }

  /** The provider is invoked by the attempts the breaker lets through: when those failed. */
  function Invocations(b: Breaker, attempts: seq<Attempt>): seq<real> {
    if attempts == [] then []
    else
      var before, last := attempts[..|attempts| - 1], attempts[|attempts| - 1];
      Invocations(b, before) + (if Admits(Outage(b, before), last.start) then [last.end] else [])
  }

  /** One after another, none ending before it starts or starting before its predecessor ended. */
  ghost predicate Sequential(from: real, attempts: seq<Attempt>, until: real) {
    if attempts == [] then from <= until
    else
      var last := attempts[|attempts| - 1];
      last.start <= last.end <= until && Sequential(from, attempts[..|attempts| - 1], last.start)
  }

  lemma {:induction false} SequentialConcat(from: real, xs: seq<Attempt>, mid: real, ys: seq<Attempt>, until: real)
    requires Sequential(from, xs, mid) && Sequential(mid, ys, until)
    ensures Sequential(from, xs + ys, until)
    decreases |ys|
  {
    if ys == [] {
      assert xs + ys == xs;
    } else {
      var k := |ys| - 1;
      SequentialConcat(from, xs, mid, ys[..k], ys[k].start);
      assert (xs + ys)[..|xs| + k] == xs + ys[..k];
    }
  }

  lemma {:induction false} OutageConcat(b: Breaker, xs: seq<Attempt>, ys: seq<Attempt>)
    ensures Outage(b, xs + ys) == Outage(Outage(b, xs), ys)
    ensures Invocations(b, xs + ys) == Invocations(b, xs) + Invocations(Outage(b, xs), ys)
    decreases |ys|
  {
    if ys == [] {
      assert xs + ys == xs;
    } else {
      var k := |ys| - 1;
      OutageConcat(b, xs, ys[..k]);
      assert (xs + ys)[..|xs| + k] == xs + ys[..k];
    }
  }

  function Threshold(failureThreshold: int): nat {
    if failureThreshold < 1 then 1 else failureThreshold
  }

  /** The most a provider that is down may have been invoked: the threshold, plus one probe for
      every full recovery timeout between the first failure and the last. */
  ghost predicate WithinOutageBound(invocations: seq<real>, failureThreshold: int, recoveryTimeout: real) {
    var n, k := |invocations|, Threshold(failureThreshold);
    n > k ==> (n - k) as real * recoveryTimeout <= invocations[n - 1] - invocations[0]
  }

  /** The breaker through an outage: it counts every invocation and is closed below the threshold. */
  lemma {:induction false} OutageState(b0: Breaker, from: real, attempts: seq<Attempt>, until: real)
    requires Sequential(from, attempts, until)
    requires b0 == Fresh(b0.failureThreshold, b0.recoveryTimeout)
    ensures var b, inv := Outage(b0, attempts), Invocations(b0, attempts);
            && b.failureThreshold == b0.failureThreshold && b.recoveryTimeout == b0.recoveryTimeout
            && b.failureCount == |inv|
            && (b.phase == Closed <==> |inv| < Threshold(b0.failureThreshold))
            && (inv != [] ==> b.lastFailureTime == inv[|inv| - 1] <= until)
            && (b.phase == HalfOpen ==> b.lastFailureTime + b0.recoveryTimeout <= until)
    decreases |attempts|
  {
    if attempts != [] {
      var last := attempts[|attempts| - 1];
      OutageState(b0, from, attempts[..|attempts| - 1], last.start);
    }
  }

  lemma {:induction false} InvocationsAreOrdered(b0: Breaker, from: real, attempts: seq<Attempt>, until: real)
    requires Sequential(from, attempts, until)
    ensures var inv := Invocations(b0, attempts);
            inv != [] ==> inv[0] <= inv[|inv| - 1] <= until
    decreases |attempts|
  {
    if attempts != [] {
      var last := attempts[|attempts| - 1];
      InvocationsAreOrdered(b0, from, attempts[..|attempts| - 1], last.start);
    }
  }

  /** Once the threshold is reached, the breaker lets a call through only a timeout later. */
  lemma ProbesAreSpaced(b0: Breaker, from: real, attempts: seq<Attempt>, now: real)
    requires Sequential(from, attempts, now)
    requires b0 == Fresh(b0.failureThreshold, b0.recoveryTimeout)
    requires Admits(Outage(b0, attempts), now)
    ensures var inv := Invocations(b0, attempts);
            |inv| >= Threshold(b0.failureThreshold) ==> inv[|inv| - 1] + b0.recoveryTimeout <= now
  {
    OutageState(b0, from, attempts, now);
  }

  /** Main result of the composition: however long the outage and however many calls are made. */
  lemma {:induction false} OutageBound(b0: Breaker, from: real, attempts: seq<Attempt>, until: real)
    requires Sequential(from, attempts, until)
    requires b0 == Fresh(b0.failureThreshold, b0.recoveryTimeout)
    ensures WithinOutageBound(Invocations(b0, attempts), b0.failureThreshold, b0.recoveryTimeout)
    decreases |attempts|
  {
    if attempts != [] {
      var before, last := attempts[..|attempts| - 1], attempts[|attempts| - 1];
      OutageBound(b0, from, before, last.start);
      OneInvocationMore(b0, attempts);
      if Admits(Outage(b0, before), last.start) {
        ProbesAreSpaced(b0, from, before, last.start);
        InvocationsAreOrdered(b0, from, before, last.start);
        BoundGrows(Invocations(b0, before), last.end, b0.failureThreshold, b0.recoveryTimeout);
      }
    }
  }

  lemma OneInvocationMore(b0: Breaker, attempts: seq<Attempt>)
    requires attempts != []
    ensures var before, last := attempts[..|attempts| - 1], attempts[|attempts| - 1];
            Invocations(b0, attempts)
              == if Admits(Outage(b0, before), last.start) then Invocations(b0, before) + [last.end]
                 else Invocations(b0, before)
  {
  }

  lemma BoundGrows(inv: seq<real>, x: real, failureThreshold: int, timeout: real)
    requires WithinOutageBound(inv, failureThreshold, timeout)
    requires inv != [] ==> inv[0] <= inv[|inv| - 1]
    requires |inv| >= Threshold(failureThreshold) ==> inv[|inv| - 1] + timeout <= x
    ensures WithinOutageBound(inv + [x], failureThreshold, timeout)
  {
    var n, k := |inv|, Threshold(failureThreshold);
    if n >= k {
      assert (n + 1 - k) as real == (n - k) as real + 1.0;
      assert (n + 1 - k) as real * timeout == (n - k) as real * timeout + timeout;
    }
  }

  /** What the environment decides for one retried call: how long it waits before the call
      starts, how long each invocation takes to fail, by how much each sleep oversleeps. */
  datatype Plan = Plan(idle: real, busy: nat -> real, oversleep: nat -> real)

  ghost predicate Possible(p: Plan) {
    p.idle >= 0.0 && forall n: nat :: p.busy(n) >= 0.0 && p.oversleep(n) >= 0.0
  }

  /** `breaker.call` on a provider that fails after `busy`. */
  method CallProvider(breaker: CircuitBreaker, start: real, busy: real) returns (invoked: bool)
    modifies breaker
    ensures invoked == Admits(old(breaker.Fields()), start)
    ensures breaker.Fields() == FailingCall(old(breaker.Fields()), Attempt(start, start + busy))
  {
    var down: Outcome<()> := Raised(Expected(0));
    var result;
    result, invoked := breaker.Call(down, start, start + busy);
  }

  /** Every attempt starts no sooner after the one before it than the backoff asks, and
      another one could start at `next`. */
  ghost predicate BackedOff(attempts: seq<Attempt>, initialDelay: real, backoffFactor: real, next: real) {
    if attempts == [] then true
    else
      var n := |attempts| - 1;
      && attempts[n].end + Delay(initialDelay, backoffFactor, n) <= next
      && BackedOff(attempts[..n], initialDelay, backoffFactor, attempts[n].start)
  }

  lemma BackedOffStep(
    attempts: seq<Attempt>, a: Attempt, initialDelay: real, backoffFactor: real, delay: real, next: real)
    requires BackedOff(attempts, initialDelay, backoffFactor, a.start)
    requires delay == Delay(initialDelay, backoffFactor, |attempts|) && a.end + delay <= next
    ensures BackedOff(attempts + [a], initialDelay, backoffFactor, next)
  {
    assert (attempts + [a])[..|attempts|] == attempts;
  }

  lemma OutageStep(b: Breaker, now: real, attempts: seq<Attempt>, a: Attempt)
    requires Sequential(now, attempts, a.start) && a.start <= a.end
    ensures Sequential(now, attempts + [a], a.end)
    ensures Outage(b, attempts + [a]) == FailingCall(Outage(b, attempts), a)
    ensures |Invocations(b, attempts + [a])|
         == |Invocations(b, attempts)| + (if Admits(Outage(b, attempts), a.start) then 1 else 0)
  {
    assert (attempts + [a])[..|attempts|] == attempts;
  }

  lemma SequentialLater(from: real, attempts: seq<Attempt>, t: real, u: real)
    requires Sequential(from, attempts, t) && t <= u
    ensures Sequential(from, attempts, u)
  {
  }

  /** `@retry_policy` around `breaker.call` while the provider always fails with an expected
      exception. The clock moves while an invocation runs and while the wrapper sleeps. All
      attempts but the last reached the provider; the last did too unless the breaker refused it. */
  method RetriedCall(breaker: CircuitBreaker, now: real, plan: Plan,
                     maxRetries: int := 2, initialDelay: real := 1.0, backoffFactor: real := 2.0)
    returns (later: real, ghost attempts: seq<Attempt>)
    requires Possible(plan)
    modifies breaker
    ensures Sequential(now, attempts, later)
    ensures 1 <= |attempts| <= AllowedCalls(maxRetries)
    ensures BackedOff(attempts[..|attempts| - 1], initialDelay, backoffFactor, attempts[|attempts| - 1].start)
    ensures breaker.Fields() == Outage(old(breaker.Fields()), attempts)
    ensures var invoked := |Invocations(old(breaker.Fields()), attempts)|;
            invoked == |attempts| - 1 || (invoked == |attempts| == AllowedCalls(maxRetries))
  {
    ghost var b := breaker.Fields();
    var retries := 0;
    var delay := initialDelay;
    later, attempts := now + plan.idle, [];
    while true
      invariant 0 <= retries == |attempts| == |Invocations(b, attempts)| < AllowedCalls(maxRetries)
      invariant delay == Delay(initialDelay, backoffFactor, retries)
      invariant Sequential(now, attempts, later)
      invariant breaker.Fields() == Outage(b, attempts)
      invariant BackedOff(attempts, initialDelay, backoffFactor, later)
      decreases maxRetries - retries
    {
      var start, busy := later, plan.busy(retries);
      var invoked := CallProvider(breaker, start, busy);
      ghost var a := Attempt(start, start + busy);
      OutageStep(b, now, attempts, a);
      ghost var before := attempts;
      attempts := attempts + [a];
      assert attempts[..|before|] == before;
      later := start + busy;
      if !invoked {
        break;
      }
      retries := retries + 1;
      if retries > maxRetries {
        break;
      }
      later := later + (if delay > 0.0 then delay else 0.0) + plan.oversleep(retries);
      SequentialLater(now, attempts, start + busy, later);
      BackedOffStep(before, a, initialDelay, backoffFactor, delay, later);
      delay := delay * backoffFactor;
    }
  }

  /** Any number of retried calls, one after another, through one outage. */
  method RideOutOutage(breaker: CircuitBreaker, now: real, plans: seq<Plan>, maxRetries: int := 2)
    returns (later: real, ghost invocations: seq<real>)
    requires forall p | p in plans :: Possible(p)
    requires breaker.Fields() == Fresh(breaker.failureThreshold, breaker.recoveryTimeout)
    modifies breaker
    ensures WithinOutageBound(invocations, breaker.failureThreshold, breaker.recoveryTimeout)
    ensures breaker.failureCount == |invocations|
    ensures invocations != [] ==> invocations[|invocations| - 1] <= later
  {
    ghost var b, all := breaker.Fields(), [];
    later := now;
    for i := 0 to |plans|
      invariant Sequential(now, all, later)
      invariant breaker.Fields() == Outage(b, all)
    {
      ghost var attempts, mid := [], later;
      later, attempts := RetriedCall(breaker, later, plans[i], maxRetries);
      SequentialConcat(now, all, mid, attempts, later);
      OutageConcat(b, all, attempts);
      all := all + attempts;
    }
    invocations := Invocations(b, all);
    OutageBound(b, now, all, later);
    OutageState(b, now, all, later);
  }
}
