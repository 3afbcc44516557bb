/** The in-memory circuit breaker of app/integrations/circuit_breaker/breaker.py.

    `call` suspends while the wrapped function runs, so calls of several tasks interleave. A run
    is therefore a sequence of the moments at which a call touches the breaker: it enters (and
    reads the `state` property), succeeds, fails with an expected exception, or escapes with an
    exception the breaker does not count. Nothing is assumed about how these moments interleave,
    so the results cover every interleaving. Clock readings are arguments. */
module CircuitBreaking {

  datatype Phase = Closed | Open | HalfOpen

  datatype Breaker = Breaker(
    failureThreshold: int, recoveryTimeout: real,
    phase: Phase, failureCount: nat, lastFailureTime: real)

  function Fresh(failureThreshold: int, recoveryTimeout: real): Breaker {
    Breaker(failureThreshold, recoveryTimeout, Closed, 0, 0.0)
  }

  /** Reading the `state` property may itself move OPEN to HALF_OPEN. */
  function Observe(b: Breaker, now: real): Breaker {
    if b.phase == Open && now - b.lastFailureTime >= b.recoveryTimeout then b.(phase := HalfOpen) else b
  }

  predicate Admits(b: Breaker, now: real) {
    Observe(b, now).phase != Open
  }

  function Fail(b: Breaker, now: real): Breaker {
    var counted := b.(failureCount := b.failureCount + 1, lastFailureTime := now);
    if b.phase == HalfOpen || counted.failureCount >= b.failureThreshold then counted.(phase := Open) else counted
  }

  function Succeed(b: Breaker): Breaker {
    b.(phase := Closed, failureCount := 0)
  }

  datatype Outcome<T> = Returned(value: T) | Raised(error: Error)

  /** `Unexpected` stands for every exception outside the expected ones. */
  datatype Error = BreakerOpen | Expected(code: int) | Unexpected(code: int)

  class CircuitBreaker {
    const failureThreshold: int
    const recoveryTimeout: real
    var phase: Phase
    var failureCount: nat
    var lastFailureTime: real

    ghost function Fields(): Breaker
      reads this
    {
      Breaker(failureThreshold, recoveryTimeout, phase, failureCount, lastFailureTime)
    }

    constructor (failureThreshold: int := 5, recoveryTimeout: real := 60.0)
      ensures Fields() == Fresh(failureThreshold, recoveryTimeout)
    {
      this.failureThreshold := failureThreshold;
      this.recoveryTimeout := recoveryTimeout;
      phase := Closed;
      failureCount := 0;
      lastFailureTime := 0.0;
    }

    method State(now: real) returns (observed: Phase)
      modifies this
      ensures Fields() == Observe(old(Fields()), now)
      ensures observed == phase
    {
      if phase == Open {
        if now - lastFailureTime >= recoveryTimeout {
          phase := HalfOpen;
        }
      }
      return phase;
    }

    method RecordFailure(now: real)
      modifies this
      ensures Fields() == Fail(old(Fields()), now)
    {
      failureCount := failureCount + 1;
      lastFailureTime := now;
      if phase == HalfOpen || failureCount >= failureThreshold {
        phase := Open;
      }
    }

    method RecordSuccess()
      modifies this
      ensures Fields() == Succeed(old(Fields()))
    {
      phase := Closed;
      failureCount := 0;
    }

    /** The part of `call` before the wrapped function is awaited. */
    method Enter(now: real) returns (admitted: bool)
      modifies this
      ensures Fields() == Step(old(Fields()), Entered(now))
      ensures admitted == Admits(old(Fields()), now)
    {
      var current := State(now);
      return current != Open;
    }

    /** The part of `call` after it: the outcome is handed on unchanged. */
    method Leave<T>(outcome: Outcome<T>, now: real) returns (result: Outcome<T>)
      modifies this
      ensures Fields() == Step(old(Fields()), Completion(outcome, now))
      ensures result == outcome
      ensures outcome.Returned? ==> phase == Closed && failureCount == 0 && lastFailureTime == old(lastFailureTime)
      ensures outcome.Raised? && !outcome.error.Unexpected? ==>
                failureCount == old(failureCount) + 1 && lastFailureTime == now && phase in {old(phase), Open}
      ensures outcome.Raised? && outcome.error.Unexpected? ==> Fields() == old(Fields())
    {
      match outcome {
        case Returned(_) => RecordSuccess();
        case Raised(Unexpected(_)) =>
        case Raised(_) => RecordFailure(now);
      }
      return outcome;
    }

    /** A `call` that no other call interrupts. The wrapped function runs only if admitted. */
    method Call<T>(outcome: Outcome<T>, start: real, end: real) returns (result: Outcome<T>, invoked: bool)
      modifies this
      ensures invoked == Admits(old(Fields()), start)
      ensures result == if invoked then outcome else Raised(BreakerOpen)
      ensures Fields() == var entered := Step(old(Fields()), Entered(start));
                          if invoked then Step(entered, Completion(outcome, end)) else entered
      ensures invoked && outcome.Returned? ==>
                phase == Closed && failureCount == 0 && lastFailureTime == old(lastFailureTime)
      ensures invoked && outcome.Raised? && !outcome.error.Unexpected? ==>
                && failureCount == old(failureCount) + 1 && lastFailureTime == end
                && (phase == Open <==> old(phase) != Closed || failureCount >= failureThreshold)
      ensures (invoked && outcome.Raised? && outcome.error.Unexpected?) || !invoked ==>
                failureCount == old(failureCount) && lastFailureTime == old(lastFailureTime)
    {
      invoked := Enter(start);
      if !invoked {
        return Raised(BreakerOpen), false;
      }
      result := Leave(outcome, end);
    }
  }

  /** `get_circuit_breaker`: one breaker per provider, made with the defaults when first asked for. */
  class Registry {
    var breakers: map<string, CircuitBreaker>

    constructor ()
      ensures breakers == map[]
    {
      breakers := map[];
    }

    method GetCircuitBreaker(provider: string) returns (breaker: CircuitBreaker)
      modifies this
      ensures breakers == old(breakers)[provider := breaker]
      ensures provider in old(breakers) ==> breaker == old(breakers)[provider]
      ensures provider !in old(breakers) ==> fresh(breaker) && breaker.Fields() == Fresh(5, 60.0)
    {
      if provider !in breakers {
        var made := new CircuitBreaker();
        breakers := breakers[provider := made];
      }
      breaker := breakers[provider];
    }
  }

  // ----- Runs over every interleaving

  datatype Event = Entered(now: real) | Succeeded | Failed(now: real) | Escaped

  function Completion<T>(outcome: Outcome<T>, now: real): Event {
    match outcome
    case Returned(_) => Succeeded
    case Raised(Unexpected(_)) => Escaped
    case Raised(_) => Failed(now)
  }

  function Step(b: Breaker, e: Event): Breaker {
    match e
    case Entered(now) => Observe(b, now)
    case Succeeded => Succeed(b)
    case Failed(now) => Fail(b, now)
    case Escaped => b
  }

  function Replay(b: Breaker, history: seq<Event>): Breaker {
    if history == [] then b
    else Step(Replay(b, history[..|history| - 1]), history[|history| - 1])
  }

  function Failures(history: seq<Event>): nat {
    if history == [] then 0
    else Failures(history[..|history| - 1]) + (if history[|history| - 1].Failed? then 1 else 0)
  }

  /** `k` events of `history` lie before its last success, that success included. */
  ghost predicate CutAtLastSuccess(history: seq<Event>, k: nat) {
    && k <= |history|
    && (k > 0 ==> history[k - 1].Succeeded?)
    && forall i | k <= i < |history| :: !history[i].Succeeded?
  }

  function LastSuccess(history: seq<Event>): (k: nat)
    ensures CutAtLastSuccess(history, k)
  {
    if history == [] then 0
    else if history[|history| - 1].Succeeded? then |history|
    else LastSuccess(history[..|history| - 1])
  }

  function FailuresSinceSuccess(history: seq<Event>): nat {
    Failures(history[LastSuccess(history)..])
  }

  function LastFailure(history: seq<Event>): real {
    if history == [] then 0.0
    else if history[|history| - 1].Failed? then history[|history| - 1].now
    else LastFailure(history[..|history| - 1])
  }

  /** Enough failures in a row. A threshold below one acts like one. */
  predicate Tripped(failureThreshold: int, history: seq<Event>) {
    var n := FailuresSinceSuccess(history);
    n >= 1 && n >= failureThreshold
  }

  /** Since the last completion some call entered, late enough to be let through. */
  ghost predicate Probed(recoveryTimeout: real, history: seq<Event>) {
    exists i | 0 <= i < |history| :: ProbedAt(recoveryTimeout, history, i)
  }

  ghost predicate ProbedAt(recoveryTimeout: real, history: seq<Event>, i: nat)
    requires i < |history|
  {
    && history[i].Entered?
    && history[i].now - LastFailure(history[..i]) >= recoveryTimeout
    && forall j | i < j < |history| :: history[j].Entered? || history[j].Escaped?
  }

  lemma CutIsUnique(history: seq<Event>, k: nat)
    requires CutAtLastSuccess(history, k)
    ensures k == LastSuccess(history)
  {
    var m := LastSuccess(history);
    assert m > 0 ==> history[m - 1].Succeeded?;
    assert k > 0 ==> history[k - 1].Succeeded?;
  }

  lemma FailuresSinceSuccessStep(history: seq<Event>, e: Event)
    ensures FailuresSinceSuccess(history + [e])
         == if e.Succeeded? then 0 else FailuresSinceSuccess(history) + (if e.Failed? then 1 else 0)
    ensures LastFailure(history + [e]) == if e.Failed? then e.now else LastFailure(history)
  {
    var h := history + [e];
    assert h[..|h| - 1] == history;
    if e.Succeeded? {
      assert h[LastSuccess(h)..] == [];
    } else {
      var k := LastSuccess(history);
      assert LastSuccess(h) == k;
      assert h[k..][..|h[k..]| - 1] == history[k..];
    }
  }

  /** How the probe clause moves when one event is appended. */
  lemma ProbedStep(timeout: real, history: seq<Event>, e: Event)
    ensures Probed(timeout, history + [e])
       <==> match e {
              case Entered(now) => Probed(timeout, history) || now - LastFailure(history) >= timeout
              case Escaped => Probed(timeout, history)
              case _ => false
            }
  {
    var h, n := history + [e], |history|;
    assert h[..n] == history;
    assert forall i | 0 <= i < n :: h[i] == history[i] && h[..i] == history[..i];
    if e.Entered? && e.now - LastFailure(history) >= timeout {
      assert ProbedAt(timeout, h, n);
    }
    if (e.Entered? || e.Escaped?) && Probed(timeout, history) {
      var i :| 0 <= i < n && ProbedAt(timeout, history, i);
      assert ProbedAt(timeout, h, i);
    }
    if Probed(timeout, h) {
      var i :| 0 <= i < |h| && ProbedAt(timeout, h, i);
      if i < n {
        assert h[n].Entered? || h[n].Escaped?;
        assert ProbedAt(timeout, history, i);
      }
    }
  }

  /** Main result. After every interleaving the breaker's fields are a function of what
      happened: the failures since the last success, the time of the last failure, and whether
      a call has been let through to probe since the last completion. */
  lemma {:induction false} FieldsAreHistory(threshold: int, timeout: real, history: seq<Event>)
    ensures var b := Replay(Fresh(threshold, timeout), history);
            && b.failureThreshold == threshold && b.recoveryTimeout == timeout
            && b.failureCount == FailuresSinceSuccess(history)
            && b.lastFailureTime == LastFailure(history)
            && b.phase == (if !Tripped(threshold, history) then Closed
                           else if Probed(timeout, history) then HalfOpen
                           else Open)
  {
    if history == [] {
      assert history[LastSuccess(history)..] == [];
    } else {
      var before, e := history[..|history| - 1], history[|history| - 1];
      assert history == before + [e];
      FieldsAreHistory(threshold, timeout, before);
      FailuresSinceSuccessStep(before, e);
      ProbedStep(timeout, before, e);
    }
  }

  /** The count, stated without `LastSuccess`: cut the history after its last success, wherever
      that is, and count the failures in the rest. */
  lemma CountIsFailuresAfterCut(threshold: int, timeout: real, history: seq<Event>, k: nat)
    requires CutAtLastSuccess(history, k)
    ensures Replay(Fresh(threshold, timeout), history).failureCount == Failures(history[k..])
  {
    FieldsAreHistory(threshold, timeout, history);
    CutIsUnique(history, k);
  }

  // ----- What the calls came back with

  /** A moment of a call, with the outcome of the wrapped function as the caller sees it. */
  datatype Moment<T> = Entering(now: real) | Leaving(outcome: Outcome<T>, now: real)

  predicate Returns<T>(m: Moment<T>) {
    m.Leaving? && m.outcome.Returned?
  }

  /** An exception the breaker counts; the open error of a breaker further in is one. */
  predicate FailsExpectedly<T>(m: Moment<T>) {
    m.Leaving? && m.outcome.Raised? && (m.outcome.error.Expected? || m.outcome.error == BreakerOpen)
  }

  function Happening<T>(m: Moment<T>): Event {
    match m
    case Entering(now) => Entered(now)
    case Leaving(outcome, now) => Completion(outcome, now)
  }

  function Happenings<T>(moments: seq<Moment<T>>): (history: seq<Event>)
    ensures |history| == |moments|
  {
    if moments == [] then []
    else Happenings(moments[..|moments| - 1]) + [Happening(moments[|moments| - 1])]
  }

  /** Expected failures since a call last returned. */
  function FailuresInARow<T>(moments: seq<Moment<T>>): nat {
    if moments == [] then 0
    else
      var m := moments[|moments| - 1];
      if Returns(m) then 0 else FailuresInARow(moments[..|moments| - 1]) + (if FailsExpectedly(m) then 1 else 0)
  }

  function LastFailureSeen<T>(moments: seq<Moment<T>>): real {
    if moments == [] then 0.0
    else
      var m := moments[|moments| - 1];
      if FailsExpectedly(m) then m.now else LastFailureSeen(moments[..|moments| - 1])
  }

  /** The breaker has counted n failures, the last at `last`, and is closed exactly below the threshold. */
  predicate Shows(b: Breaker, threshold: int, n: nat, last: real) {
    && b.failureThreshold == threshold && b.failureCount == n && b.lastFailureTime == last
    && (b.phase == Closed <==> n == 0 || n < threshold)
  }

  lemma MomentShows<T>(b: Breaker, threshold: int, n: nat, last: real, m: Moment<T>)
    requires Shows(b, threshold, n, last)
    ensures Shows(Step(b, Happening(m)), threshold, if Returns(m) then 0 else n + (if FailsExpectedly(m) then 1 else 0),
                  if FailsExpectedly(m) then m.now else last)
  {
  }

  /** Main result: over every interleaving of calls, the count and the stamp of the breaker are those
      of the outcomes its callers saw, and it is closed exactly below the threshold. */
  lemma {:induction false} FieldsAreOutcomes<T>(threshold: int, timeout: real, moments: seq<Moment<T>>)
    ensures Shows(Replay(Fresh(threshold, timeout), Happenings(moments)), threshold, FailuresInARow(moments),
                  LastFailureSeen(moments))
  {
    if moments != [] {
      var before, m := moments[..|moments| - 1], moments[|moments| - 1];
      FieldsAreOutcomes(threshold, timeout, before);
      assert Happenings(moments)[..|before|] == Happenings(before);
      MomentShows(Replay(Fresh(threshold, timeout), Happenings(before)), threshold, FailuresInARow(before),
                  LastFailureSeen(before), m);
    }
  }

  /** The same of the object, driven through any moments. */
  method PlayMoments<T>(breaker: CircuitBreaker, moments: seq<Moment<T>>)
    requires breaker.Fields() == Fresh(breaker.failureThreshold, breaker.recoveryTimeout)
    modifies breaker
    ensures Shows(breaker.Fields(), breaker.failureThreshold, FailuresInARow(moments), LastFailureSeen(moments))
  {
    ghost var b0 := breaker.Fields();
    for i := 0 to |moments|
      invariant breaker.Fields() == Replay(b0, Happenings(moments[..i]))
    {
      ghost var before, now := moments[..i], moments[..i + 1];
      assert now[..i] == before;
      assert Happenings(now)[..i] == Happenings(before);
      match moments[i] {
        case Entering(time) =>
          var admitted := breaker.Enter(time);
        case Leaving(outcome, time) =>
          var result := breaker.Leave(outcome, time);
      }
    }
    assert moments[..|moments|] == moments;
    FieldsAreOutcomes(breaker.failureThreshold, breaker.recoveryTimeout, moments);
  }

  /** A call is refused exactly when the breaker has tripped, the last failure is younger than
      the timeout, and no earlier call was let through to probe. */
  lemma RefusedExactlyWhileYoung(threshold: int, timeout: real, history: seq<Event>, now: real)
    ensures !Admits(Replay(Fresh(threshold, timeout), history), now)
       <==> && Tripped(threshold, history)
            && now - LastFailure(history) < timeout
            && !Probed(timeout, history)
  {
    FieldsAreHistory(threshold, timeout, history);
  }
}
