/** The circuit breaker through an outage when several tasks share it. Each provider has one breaker
    for the whole process, and a half-open breaker lets every call through until one completes.

    A run is an interleaving of the moments of `CircuitBreaking`: calls enter, and those that were
    let through fail with an expected exception, in any order. At most `c` of them are in flight. */
module ConcurrentOutage {
  import opened CircuitBreaking
  import RetryPolicy

  /** How many calls of the run reached the provider. */
  function Invoked(b0: Breaker, history: seq<Event>): nat {
    if history == [] then 0
    else
      var before, e := history[..|history| - 1], history[|history| - 1];
      Invoked(b0, before) + (if e.Entered? && Admits(Replay(b0, before), e.now) then 1 else 0)
  }

  /** How many times a call found the breaker open and half-opened it. */
  function Reopened(b0: Breaker, history: seq<Event>): nat {
    if history == [] then 0
    else
      var before, e := history[..|history| - 1], history[|history| - 1];
      var b := Replay(b0, before);
      Reopened(b0, before) + (if e.Entered? && b.phase == Open && Admits(b, e.now) then 1 else 0)
  }

  function FirstFailure(history: seq<Event>): real {
    if history == [] then 0.0
    else
      var before, e := history[..|history| - 1], history[|history| - 1];
      if Failures(before) == 0 && e.Failed? then e.now else FirstFailure(before)
  }

  /** The provider is down: every call let through fails or is in flight, and at most `c` are. The
      clock does not run backwards. */
  ghost predicate SharedOutage(b0: Breaker, c: nat, history: seq<Event>, until: real) {
    if history == [] then true
    else
      var before, e := history[..|history| - 1], history[|history| - 1];
      && (e.Entered? || e.Failed?) && e.now <= until
      && Failures(history) <= Invoked(b0, history) <= Failures(history) + c
      && SharedOutage(b0, c, before, e.now)
  }

  /** The most calls that reach the provider while the breaker half-opens p times. */
  function Allowance(k: nat, c: nat, p: nat): nat
    requires k >= 1
  {
    if p == 0 then k - 1 + c else Allowance(k, c, p - 1) + c
  }

  /** The time p recovery timeouts take. */
  function Waits(timeout: real, p: nat): real {
    if p == 0 then 0.0 else Waits(timeout, p - 1) + timeout
  }

  /** Every half-opening costs one timeout and lets c calls through. */
  lemma {:induction false} AllowanceIsPaid(k: nat, c: nat, p: nat, timeout: real)
    requires k >= 1
    ensures k - 1 + c <= Allowance(k, c, p)
    ensures (Allowance(k, c, p) - (k - 1 + c)) as real * timeout == c as real * Waits(timeout, p)
  {
    if p > 0 {
      AllowanceIsPaid(k, c, p - 1, timeout);
      var extra := Allowance(k, c, p - 1) - (k - 1 + c);
      assert (extra + c) as real == extra as real + c as real;
      Distribute(extra as real, c as real, timeout);
      Distribute(Waits(timeout, p - 1), timeout, c as real);
    }
  }

  lemma Distribute(x: real, y: real, z: real)
    ensures (x + y) * z == x * z + y * z
  {
  }

  lemma ScalesUp(x: real, y: real, z: real)
    requires x <= y && z >= 0.0
    ensures x * z <= y * z
  {
  }

  lemma Squeeze(extra: real, allowed: real, c: real, waited: real, timeout: real, elapsed: real)
    requires 0.0 <= extra <= allowed && allowed * timeout == c * waited
    requires 0.0 <= c && waited <= elapsed && 0.0 <= elapsed
    ensures extra * timeout <= c * elapsed
  {
    if timeout >= 0.0 {
      ScalesUp(extra, allowed, timeout);
      ScalesUp(waited, elapsed, c);
      assert waited * c == c * waited && elapsed * c == c * elapsed;
    } else {
      ScalesUp(0.0, extra, -timeout);
      ScalesUp(0.0, elapsed, c);
      assert extra * -timeout == -(extra * timeout) && elapsed * c == c * elapsed;
    }
  }

  /** What holds between the moments of an outage. */
  ghost predicate Accounted(b0: Breaker, c: nat, history: seq<Event>, until: real) {
    var b, n, f, p := Replay(b0, history), Invoked(b0, history), Failures(history), Reopened(b0, history);
    var k, timeout := RetryPolicy.Threshold(b0.failureThreshold), b0.recoveryTimeout;
    && b.failureThreshold == b0.failureThreshold && b.recoveryTimeout == timeout && b.failureCount == f
    && f <= n <= f + c
    && (f > 0 ==> FirstFailure(history) <= b.lastFailureTime <= until)
    && (b.phase == Closed <==> f < k)
    && match b.phase
       case Closed => p == 0
       case Open => n <= Allowance(k, c, p) && Waits(timeout, p) <= b.lastFailureTime - FirstFailure(history)
       case HalfOpen => p >= 1 && f <= Allowance(k, c, p - 1) && Waits(timeout, p) <= until - FirstFailure(history)
  }

  lemma EnterKeepsAccount(b0: Breaker, c: nat, history: seq<Event>, now: real, until: real)
    requires Accounted(b0, c, history, now) && now <= until
    requires Failures(history + [Entered(now)]) <= Invoked(b0, history + [Entered(now)])
          <= Failures(history + [Entered(now)]) + c
    ensures Accounted(b0, c, history + [Entered(now)], until)
  {
    assert (history + [Entered(now)])[..|history|] == history;
  }

  lemma FailKeepsAccount(b0: Breaker, c: nat, history: seq<Event>, now: real, until: real)
    requires Accounted(b0, c, history, now) && now <= until
    requires Failures(history + [Failed(now)]) <= Invoked(b0, history + [Failed(now)])
          <= Failures(history + [Failed(now)]) + c
    ensures Accounted(b0, c, history + [Failed(now)], until)
  {
    assert (history + [Failed(now)])[..|history|] == history;
  }

  lemma {:induction false} OutageIsAccounted(b0: Breaker, c: nat, history: seq<Event>, until: real)
    requires b0 == Fresh(b0.failureThreshold, b0.recoveryTimeout) && SharedOutage(b0, c, history, until)
    ensures Accounted(b0, c, history, until)
    decreases |history|
  {
    if history != [] {
      var before, e := history[..|history| - 1], history[|history| - 1];
      assert history == before + [e];
      OutageIsAccounted(b0, c, before, e.now);
      if e.Entered? {
        EnterKeepsAccount(b0, c, before, e.now, until);
      } else {
        FailKeepsAccount(b0, c, before, e.now, until);
      }
    }
  }

  /** Each time the breaker half-opens, c calls can slip through, and a timeout has passed. */
  lemma InvokedWithinAllowance(b0: Breaker, c: nat, history: seq<Event>, until: real)
    requires b0 == Fresh(b0.failureThreshold, b0.recoveryTimeout) && SharedOutage(b0, c, history, until)
    ensures Invoked(b0, history) <= Allowance(RetryPolicy.Threshold(b0.failureThreshold), c, Reopened(b0, history))
    ensures Failures(history) == 0 ==> Invoked(b0, history) <= c
    ensures Failures(history) > 0 ==> FirstFailure(history) <= until
    ensures Failures(history) > 0 ==> Waits(b0.recoveryTimeout, Reopened(b0, history)) <= until - FirstFailure(history)
  {
    OutageIsAccounted(b0, c, history, until);
  }

  /** At most threshold - 1 + c invocations, and c more for every full recovery timeout. */
  predicate WithinBound(n: nat, k: nat, c: nat, timeout: real, elapsed: real) {
    n >= k + c ==> (n - (k + c - 1)) as real * timeout <= c as real * elapsed
  }

  lemma AllowanceIsWithinBound(n: nat, k: nat, c: nat, p: nat, timeout: real, elapsed: real)
    requires 1 <= k && n <= Allowance(k, c, p) && Waits(timeout, p) <= elapsed && 0.0 <= elapsed
    ensures WithinBound(n, k, c, timeout, elapsed)
  {
    AllowanceIsPaid(k, c, p, timeout);
    if n >= k + c {
      Squeeze((n - (k + c - 1)) as real, (Allowance(k, c, p) - (k - 1 + c)) as real, c as real, Waits(timeout, p),
              timeout, elapsed);
    }
  }

  /** Main result: with at most c calls in flight, the invocations of a provider that is down stay
      within the bound, counted from its first failure. */
  lemma ConcurrentOutageBound(b0: Breaker, c: nat, history: seq<Event>, until: real)
    requires b0 == Fresh(b0.failureThreshold, b0.recoveryTimeout) && SharedOutage(b0, c, history, until)
    ensures WithinBound(Invoked(b0, history), RetryPolicy.Threshold(b0.failureThreshold), c, b0.recoveryTimeout,
                        until - FirstFailure(history))
  {
    InvokedWithinAllowance(b0, c, history, until);
    if Failures(history) > 0 {
      AllowanceIsWithinBound(Invoked(b0, history), RetryPolicy.Threshold(b0.failureThreshold), c, Reopened(b0, history),
                             b0.recoveryTimeout, until - FirstFailure(history));
    }
  }

  lemma {:induction false} PrefixIsOutage(b0: Breaker, c: nat, history: seq<Event>, until: real, n: nat)
    requires SharedOutage(b0, c, history, until) && n <= |history|
    ensures forall i | 0 <= i < n :: history[i].Entered? || history[i].Failed?
    decreases |history|
  {
    if history != [] && n > 0 {
      var before := history[..|history| - 1];
      PrefixIsOutage(b0, c, before, history[|history| - 1].now, |before|);
      assert forall i | 0 <= i < |before| :: history[i] == before[i];
    }
  }

  /** One breaker shared by the tasks, driven through an outage moment by moment. */
  method ShareBreaker(breaker: CircuitBreaker, ghost c: nat, history: seq<Event>, ghost until: real)
    returns (invoked: nat)
    requires breaker.Fields() == Fresh(breaker.failureThreshold, breaker.recoveryTimeout)
    requires SharedOutage(breaker.Fields(), c, history, until)
    modifies breaker
    ensures breaker.Fields() == Replay(old(breaker.Fields()), history)
    ensures invoked == Invoked(old(breaker.Fields()), history)
    ensures WithinBound(invoked, RetryPolicy.Threshold(breaker.failureThreshold), c, breaker.recoveryTimeout,
                        until - FirstFailure(history))
  {
    ghost var b0 := breaker.Fields();
    PrefixIsOutage(b0, c, history, until, |history|);
    invoked := 0;
    for i := 0 to |history|
      invariant breaker.Fields() == Replay(b0, history[..i]) && invoked == Invoked(b0, history[..i])
    {
      assert history[..i + 1][..i] == history[..i];
      match history[i] {
        case Entered(now) =>
          var admitted := breaker.Enter(now);
          if admitted {
            invoked := invoked + 1;
          }
        case Failed(now) =>
          var down: Outcome<()> := Raised(Expected(0));
          var result := breaker.Leave(down, now);
      }
    }
    assert history[..|history|] == history;
    ConcurrentOutageBound(b0, c, history, until);
  }

  // ----- The bound is attained

  /** The run is over, `n` calls were invoked, all of them failed, the first at time 0. */
  ghost predicate Settled(b0: Breaker, c: nat, history: seq<Event>, n: nat, until: real) {
    && SharedOutage(b0, c, history, until)
    && Invoked(b0, history) == Failures(history) == n
    && (n > 0 ==> FirstFailure(history) == 0.0)
  }

  lemma OneMoreEnters(b0: Breaker, c: nat, history: seq<Event>, now: real)
    requires SharedOutage(b0, c, history, now) && Admits(Replay(b0, history), now)
    requires Failures(history) <= Invoked(b0, history) < Failures(history) + c
    ensures var h := history + [Entered(now)];
            && SharedOutage(b0, c, h, now) && Admits(Replay(b0, h), now)
            && Invoked(b0, h) == Invoked(b0, history) + 1
            && Failures(h) == Failures(history) && FirstFailure(h) == FirstFailure(history)
  {
    assert (history + [Entered(now)])[..|history|] == history;
  }

  lemma OneMoreFails(b0: Breaker, c: nat, history: seq<Event>, now: real)
    requires SharedOutage(b0, c, history, now)
    requires Failures(history) < Invoked(b0, history) <= Failures(history) + c
    ensures var h := history + [Failed(now)];
            && SharedOutage(b0, c, h, now) && Replay(b0, h).lastFailureTime == now
            && Invoked(b0, h) == Invoked(b0, history) && Failures(h) == Failures(history) + 1
            && FirstFailure(h) == if Failures(history) == 0 then now else FirstFailure(history)
  {
    assert (history + [Failed(now)])[..|history|] == history;
  }

  lemma {:induction false} EnterTogether(b0: Breaker, c: nat, history: seq<Event>, now: real, j: nat)
    returns (h: seq<Event>)
    requires SharedOutage(b0, c, history, now) && Invoked(b0, history) == Failures(history) && j <= c
    requires Admits(Replay(b0, history), now)
    ensures SharedOutage(b0, c, h, now) && Admits(Replay(b0, h), now)
    ensures Invoked(b0, h) == Invoked(b0, history) + j && Failures(h) == Failures(history)
    ensures FirstFailure(h) == FirstFailure(history)
  {
    h := history;
    if j > 0 {
      var before := EnterTogether(b0, c, history, now, j - 1);
      OneMoreEnters(b0, c, before, now);
      h := before + [Entered(now)];
    }
  }

  lemma {:induction false} FailTogether(b0: Breaker, c: nat, history: seq<Event>, now: real, j: nat)
    returns (h: seq<Event>)
    requires SharedOutage(b0, c, history, now)
    requires Failures(history) + j <= Invoked(b0, history) <= Failures(history) + c
    ensures SharedOutage(b0, c, h, now)
    ensures Invoked(b0, h) == Invoked(b0, history) && Failures(h) == Failures(history) + j
    ensures FirstFailure(h) == if Failures(history) == 0 && j > 0 then now else FirstFailure(history)
    ensures j > 0 ==> Replay(b0, h).lastFailureTime == now
  {
    h := history;
    if j > 0 {
      var before := FailTogether(b0, c, history, now, j - 1);
      OneMoreFails(b0, c, before, now);
      h := before + [Failed(now)];
    }
  }

  /** j calls enter at one moment and then all fail. */
  lemma Burst(b0: Breaker, c: nat, history: seq<Event>, n: nat, now: real, j: nat) returns (h: seq<Event>)
    requires Settled(b0, c, history, n, now) && 0 < j <= c && Admits(Replay(b0, history), now)
    requires n == 0 ==> now == 0.0
    ensures Settled(b0, c, h, n + j, now) && Replay(b0, h).lastFailureTime == now
  {
    var entered := EnterTogether(b0, c, history, now, j);
    h := FailTogether(b0, c, entered, now, j);
  }

  /** Calls that fail one by one while the breaker is closed. */
  lemma {:induction false} FailOneByOne(b0: Breaker, c: nat, n: nat) returns (h: seq<Event>)
    requires b0 == Fresh(b0.failureThreshold, b0.recoveryTimeout)
    requires 0 < c && n < RetryPolicy.Threshold(b0.failureThreshold)
    ensures Settled(b0, c, h, n, 0.0)
  {
    if n == 0 {
      h := [];
    } else {
      var before := FailOneByOne(b0, c, n - 1);
      OutageIsAccounted(b0, c, before, 0.0);
      h := Burst(b0, c, before, n - 1, 0.0, 1);
    }
  }

  lemma OutageLater(b0: Breaker, c: nat, history: seq<Event>, t: real, u: real)
    requires SharedOutage(b0, c, history, t) && t <= u
    ensures SharedOutage(b0, c, history, u)
  {
  }

  /** The bound with equality. */
  predicate MeetsBound(n: nat, k: nat, c: nat, timeout: real, elapsed: real) {
    n >= k + c - 1 && (n - (k + c - 1)) as real * timeout == c as real * elapsed
  }

  lemma AllowanceMeetsBound(k: nat, c: nat, p: nat, timeout: real)
    requires k >= 1
    ensures MeetsBound(Allowance(k, c, p), k, c, timeout, Waits(timeout, p))
  {
    AllowanceIsPaid(k, c, p, timeout);
  }

  /** For any number of tasks and any length of the outage there is a run that reaches the bound:
      the calls come in bursts, as soon as the breaker half-opens. */
  lemma BoundIsAttained(b0: Breaker, c: nat, p: nat) returns (h: seq<Event>)
    requires b0 == Fresh(b0.failureThreshold, b0.recoveryTimeout) && b0.recoveryTimeout >= 0.0 && 0 < c
    ensures var k, until := RetryPolicy.Threshold(b0.failureThreshold), Waits(b0.recoveryTimeout, p);
            && SharedOutage(b0, c, h, until) && FirstFailure(h) == 0.0
            && Invoked(b0, h) == k - 1 + c + c * p
            && MeetsBound(Invoked(b0, h), k, c, b0.recoveryTimeout, until)
  {
    h := BurstsAttain(b0, c, p);
    AllowanceIsLinear(RetryPolicy.Threshold(b0.failureThreshold), c, p);
    AllowanceMeetsBound(RetryPolicy.Threshold(b0.failureThreshold), c, p, b0.recoveryTimeout);
  }

  lemma {:induction false} AllowanceIsLinear(k: nat, c: nat, p: nat)
    requires k >= 1
    ensures Allowance(k, c, p) == k - 1 + c + c * p
  {
    if p > 0 {
      AllowanceIsLinear(k, c, p - 1);
    }
  }

  lemma {:induction false} BurstsAttain(b0: Breaker, c: nat, p: nat) returns (h: seq<Event>)
    requires b0 == Fresh(b0.failureThreshold, b0.recoveryTimeout) && b0.recoveryTimeout >= 0.0 && 0 < c
    ensures Settled(b0, c, h, Allowance(RetryPolicy.Threshold(b0.failureThreshold), c, p), Waits(b0.recoveryTimeout, p))
    ensures Replay(b0, h).lastFailureTime == Waits(b0.recoveryTimeout, p)
  {
    var k, now := RetryPolicy.Threshold(b0.failureThreshold), Waits(b0.recoveryTimeout, p);
    if p == 0 {
      var before := FailOneByOne(b0, c, k - 1);
      OutageIsAccounted(b0, c, before, now);
      h := Burst(b0, c, before, k - 1, now, c);
    } else {
      var before := BurstsAttain(b0, c, p - 1);
      OutageIsAccounted(b0, c, before, Waits(b0.recoveryTimeout, p - 1));
      OutageLater(b0, c, before, Waits(b0.recoveryTimeout, p - 1), now);
      h := Burst(b0, c, before, Allowance(k, c, p - 1), now, c);
    }
  }
}
