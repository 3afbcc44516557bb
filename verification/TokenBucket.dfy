/** The in-memory token bucket of app/integrations/rate_limit/limiter.py.

    The code refills lazily, inside `acquire`. The model shows that the verdicts it gives are
    exactly those of a limiter that keeps no tokens at all: one that remembers the granted
    calls and grants a new one precisely when no window ending now would hold more than
    `capacity + refill_rate * length` calls.

    Time and tokens are reals; the clock is an argument of each call. */
module TokenBucket {

  function Min(x: real, y: real): real {
    if x <= y then x else y
  }

  function Max(x: real, y: real): real {
    if x <= y then y else x
  }

  datatype Bucket = Bucket(capacity: int, refillRate: real, tokens: real, lastRefill: real)

  function Fresh(capacity: int, refillRate: real, now: real): Bucket {
    Bucket(capacity, refillRate, capacity as real, now)
  }

  /** The first half of `acquire`: nothing is written unless new tokens came in. */
  function AddTokens(b: Bucket, newTokens: real, now: real): Bucket {
    if newTokens > 0.0 then
      b.(tokens := Min(b.capacity as real, b.tokens + newTokens), lastRefill := now)
    else
      b
  }

  function NewTokens(b: Bucket, now: real): real {
    (now - b.lastRefill) * b.refillRate
  }

  function Refill(b: Bucket, now: real): Bucket {
    AddTokens(b, NewTokens(b, now), now)
  }

  /** The second half of `acquire`. */
  function Take(b: Bucket): Bucket {
    if b.tokens >= 1.0 then b.(tokens := b.tokens - 1.0) else b
  }

  predicate Grants(b: Bucket, now: real) {
    Refill(b, now).tokens >= 1.0
  }

  function After(b: Bucket, now: real): Bucket {
    Take(Refill(b, now))
  }

  class RateLimiter {
    const capacity: int
    const refillRate: real
    var tokens: real
    var lastRefill: real

    ghost function State(): Bucket
      reads this
    {
      Bucket(capacity, refillRate, tokens, lastRefill)
    }

    constructor (capacity: int, refillRate: real, now: real)
      ensures State() == Fresh(capacity, refillRate, now)
    {
      this.capacity := capacity;
      this.tokens := capacity as real;
      this.refillRate := refillRate;
      this.lastRefill := now;
    }

    method Acquire(now: real) returns (granted: bool)
      modifies this`tokens, this`lastRefill
      ensures State() == After(old(State()), now)
      ensures granted == Grants(old(State()), now)
      ensures lastRefill == if (now - old(lastRefill)) * refillRate > 0.0 then now else old(lastRefill)
    {
      var elapsed := now - lastRefill;
      var newTokens := elapsed * refillRate;
      if newTokens > 0.0 {
        tokens := Min(capacity as real, tokens + newTokens);
        lastRefill := now;
      }
      if tokens >= 1.0 {
        tokens := tokens - 1.0;
        return true;
      }
      return false;
    }
  }

  // ----- Runs

  function StateAfter(b: Bucket, times: seq<real>): Bucket
    decreases |times|
  {
    if times == [] then b else StateAfter(After(b, times[0]), times[1..])
  }

  function Verdicts(b: Bucket, times: seq<real>): (vs: seq<bool>)
    ensures |vs| == |times|
    decreases |times|
  {
    if times == [] then [] else [Grants(b, times[0])] + Verdicts(After(b, times[0]), times[1..])
  }

  function Count(vs: seq<bool>): nat {
    if vs == [] then 0 else (if vs[0] then 1 else 0) + Count(vs[1..])
  }

  /** No reading of the clock is earlier than `start` or than the reading before it. */
  predicate Clocked(start: real, times: seq<real>)
    decreases |times|
  {
    times == [] || (start <= times[0] && Clocked(times[0], times[1..]))
  }

  // ----- The continuously filling bucket

  /** What a refill over `d` seconds adds. A negative rate adds nothing. */
  function Gain(rate: real, d: real): real {
    if rate > 0.0 then d * rate else 0.0
  }

  lemma GainAdds(rate: real, d: real, e: real)
    ensures Gain(rate, d) + Gain(rate, e) == Gain(rate, d + e)
    ensures d >= 0.0 ==> Gain(rate, d) >= 0.0
  {
  }

  /** The tokens an ideal bucket would show at time `t`, refilled at every instant. */
  function Level(b: Bucket, t: real): real {
    Min(b.capacity as real, b.tokens + Gain(b.refillRate, t - b.lastRefill))
  }

  ghost predicate Valid(b: Bucket) {
    Min(0.0, b.capacity as real) <= b.tokens <= b.capacity as real
  }

  lemma AddedTokensKeepRange(b: Bucket, newTokens: real, now: real)
    requires Valid(b)
    ensures Valid(Take(AddTokens(b, newTokens, now)))
  {
  }

  lemma CallKeepsSettings(b: Bucket, now: real)
    ensures After(b, now).capacity == b.capacity && After(b, now).refillRate == b.refillRate
  {
  }

  lemma CallKeepsRange(b: Bucket, now: real)
    requires Valid(b)
    ensures Valid(After(b, now))
    ensures After(b, now).capacity == b.capacity && After(b, now).refillRate == b.refillRate
  {
    AddedTokensKeepRange(b, NewTokens(b, now), now);
  }

  /** Tokens stay in [0, capacity] whatever the clock does, even if it runs backwards. */
  lemma {:induction false} TokensStayInRange(b: Bucket, times: seq<real>)
    requires Valid(b)
    ensures Valid(StateAfter(b, times))
    ensures StateAfter(b, times).capacity == b.capacity
    ensures StateAfter(b, times).refillRate == b.refillRate
    decreases |times|
  {
    if times != [] {
      CallKeepsRange(b, times[0]);
      TokensStayInRange(After(b, times[0]), times[1..]);
    }
  }

  lemma LevelAdvances(b: Bucket, t: real, u: real)
    requires b.tokens <= b.capacity as real && b.lastRefill <= t <= u
    ensures Level(b, u) == Min(b.capacity as real, Level(b, t) + Gain(b.refillRate, u - t))
  {
    GainAdds(b.refillRate, t - b.lastRefill, u - t);
  }

  lemma NewTokensAreGain(rate: real, d: real)
    requires d >= 0.0
    ensures Gain(rate, d) == Max(0.0, d * rate)
    ensures Gain(rate, 0.0) == 0.0
  {
    if rate > 0.0 {
      assert d * rate >= 0.0;
    } else {
      assert d * rate <= 0.0;
    }
  }

  /** After the refill the stored tokens are the ideal level, and no further gain is due. */
  lemma RefillShowsLevel(b: Bucket, now: real)
    requires b.tokens <= b.capacity as real && b.lastRefill <= now
    ensures var f := Refill(b, now);
            && f == b.(tokens := Level(b, now), lastRefill := f.lastRefill)
            && f.lastRefill <= now && Gain(b.refillRate, now - f.lastRefill) == 0.0
  {
    NewTokensAreGain(b.refillRate, now - b.lastRefill);
  }

  lemma TakenTokenLowersLevel(f: Bucket, now: real)
    requires f.tokens <= f.capacity as real && Gain(f.refillRate, now - f.lastRefill) == 0.0
    ensures Level(Take(f), now) == f.tokens - (if f.tokens >= 1.0 then 1.0 else 0.0)
    ensures Take(f).tokens <= f.tokens && Take(f) == f.(tokens := Take(f).tokens)
  {
  }

  /** One call, seen through the ideal level: it is granted when the level is at least one,
      takes one token if granted, and is invisible otherwise. */
  lemma CallSeesLevel(b: Bucket, now: real)
    requires b.tokens <= b.capacity as real && b.lastRefill <= now
    ensures var a := After(b, now);
            && a.lastRefill <= now && a.tokens <= a.capacity as real
            && a.capacity == b.capacity && a.refillRate == b.refillRate
    ensures Grants(b, now) == (Level(b, now) >= 1.0)
    ensures Level(After(b, now), now) == Level(b, now) - (if Grants(b, now) then 1.0 else 0.0)
  {
    RefillShowsLevel(b, now);
    TakenTokenLowersLevel(Refill(b, now), now);
  }

  // ----- The reference limiter: windows over the granted calls

  /** Granting a call at `now` keeps every window that ends now within its allowance. */
  ghost predicate FitsEveryWindow(capacity: int, rate: real, granted: seq<real>, now: real) {
    && 1 <= capacity
    && forall i | 0 <= i < |granted| ::
         (|granted| - i + 1) as real <= capacity as real + Gain(rate, now - granted[i])
  }

  ghost function WindowVerdicts(capacity: int, rate: real, granted: seq<real>, times: seq<real>): seq<bool>
    decreases |times|
  {
    if times == [] then []
    else
      var ok := FitsEveryWindow(capacity, rate, granted, times[0]);
      [ok] + WindowVerdicts(capacity, rate, if ok then granted + [times[0]] else granted, times[1..])
  }

  /** The ideal level as a function of the granted calls alone. */
  function LevelAfterGrants(capacity: int, rate: real, granted: seq<real>, t: real): real
    decreases |granted|
  {
    if granted == [] then capacity as real
    else
      var k := |granted| - 1;
      Min(capacity as real,
          LevelAfterGrants(capacity, rate, granted[..k], granted[k]) - 1.0 + Gain(rate, t - granted[k]))
  }

  /** The window from the i-th granted call to `t` leaves x tokens of its allowance. */
  predicate Leaves(capacity: int, rate: real, granted: seq<real>, t: real, x: real, i: nat)
    requires i < |granted|
  {
    capacity as real - (|granted| - i) as real + Gain(rate, t - granted[i]) >= x
  }

  /** Taking the last granted call out of a window moves its end and what it must leave. */
  lemma LeavesBeforeLast(capacity: int, rate: real, granted: seq<real>, t: real, x: real, i: nat)
    requires i < |granted| - 1
    ensures Leaves(capacity, rate, granted, t, x, i)
       <==> var k := |granted| - 1;
            Leaves(capacity, rate, granted[..k], granted[k], x + 1.0 - Gain(rate, t - granted[k]), i)
  {
    var k := |granted| - 1;
    GainAdds(rate, granted[k] - granted[i], t - granted[k]);
  }

  lemma {:induction false} LevelIsTightestWindow(capacity: int, rate: real, granted: seq<real>, t: real, x: real)
    ensures LevelAfterGrants(capacity, rate, granted, t) >= x
       <==> && capacity as real >= x
            && forall i | 0 <= i < |granted| :: Leaves(capacity, rate, granted, t, x, i)
    decreases |granted|
  {
    if granted != [] {
      var k := |granted| - 1;
      var before, x' := granted[..k], x + 1.0 - Gain(rate, t - granted[k]);
      LevelIsTightestWindow(capacity, rate, before, granted[k], x');
      forall i | 0 <= i < k
        ensures Leaves(capacity, rate, before, granted[k], x', i) <==> Leaves(capacity, rate, granted, t, x, i)
      {
        LeavesBeforeLast(capacity, rate, granted, t, x, i);
      }
      LastGrantLowersLevel(capacity, rate, granted, t, x);
    }
  }

  lemma LastGrantLowersLevel(capacity: int, rate: real, granted: seq<real>, t: real, x: real)
    requires granted != []
    ensures var k := |granted| - 1;
            var x' := x + 1.0 - Gain(rate, t - granted[k]);
            && (LevelAfterGrants(capacity, rate, granted, t) >= x
                <==> capacity as real >= x && LevelAfterGrants(capacity, rate, granted[..k], granted[k]) >= x')
            && (Leaves(capacity, rate, granted, t, x, k) <==> capacity as real >= x')
  {
  }

  lemma GrantsLevelAdvances(capacity: int, rate: real, granted: seq<real>, t: real, u: real)
    requires t <= u
    ensures LevelAfterGrants(capacity, rate, granted, u)
         == Min(capacity as real, LevelAfterGrants(capacity, rate, granted, t) + Gain(rate, u - t))
  {
    if granted != [] {
      GainAdds(rate, t - granted[|granted| - 1], u - t);
    }
    GainAdds(rate, u - t, 0.0);
  }

  /** Main result. On every run the lazily refilled bucket gives, call by call, the verdicts of
      the window limiter: a call is refused exactly when granting it would overfill a window. */
  lemma BucketIsWindowLimiter(capacity: int, rate: real, start: real, times: seq<real>)
    requires Clocked(start, times)
    ensures Verdicts(Fresh(capacity, rate, start), times) == WindowVerdicts(capacity, rate, [], times)
  {
    BucketFollowsGrants(Fresh(capacity, rate, start), [], start, times);
  }

  /** The bucket shows the level that the granted calls leave. */
  ghost predicate Follows(b: Bucket, granted: seq<real>, t: real) {
    && b.tokens <= b.capacity as real && b.lastRefill <= t
    && Level(b, t) == LevelAfterGrants(b.capacity, b.refillRate, granted, t)
  }

  lemma TimeKeepsFollowing(b: Bucket, granted: seq<real>, t: real, now: real)
    requires Follows(b, granted, t) && t <= now
    ensures Follows(b, granted, now)
  {
    LevelAdvances(b, t, now);
    GrantsLevelAdvances(b.capacity, b.refillRate, granted, t, now);
  }

  lemma GrantLowersLevel(capacity: int, rate: real, granted: seq<real>, now: real)
    requires LevelAfterGrants(capacity, rate, granted, now) <= capacity as real
    ensures LevelAfterGrants(capacity, rate, granted + [now], now)
         == LevelAfterGrants(capacity, rate, granted, now) - 1.0
  {
    assert (granted + [now])[..|granted|] == granted;
    NewTokensAreGain(rate, 0.0);
  }

  lemma LevelDecidesWindows(capacity: int, rate: real, granted: seq<real>, now: real)
    ensures LevelAfterGrants(capacity, rate, granted, now) >= 1.0
       <==> FitsEveryWindow(capacity, rate, granted, now)
  {
    LevelIsTightestWindow(capacity, rate, granted, now, 1.0);
    forall i | 0 <= i < |granted|
      ensures Leaves(capacity, rate, granted, now, 1.0, i)
         <==> (|granted| - i + 1) as real <= capacity as real + Gain(rate, now - granted[i])
    {
    }
  }

  lemma CallKeepsFollowing(b: Bucket, granted: seq<real>, now: real)
    requires Follows(b, granted, now)
    ensures Follows(After(b, now), if Grants(b, now) then granted + [now] else granted, now)
    ensures Grants(b, now) == FitsEveryWindow(b.capacity, b.refillRate, granted, now)
  {
    CallSeesLevel(b, now);
    LevelDecidesWindows(b.capacity, b.refillRate, granted, now);
    GrantLowersLevel(b.capacity, b.refillRate, granted, now);
  }

  lemma {:induction false} BucketFollowsGrants(b: Bucket, granted: seq<real>, t: real, times: seq<real>)
    requires Clocked(t, times) && Follows(b, granted, t)
    ensures Verdicts(b, times) == WindowVerdicts(b.capacity, b.refillRate, granted, times)
    decreases |times|
  {
    if times != [] {
      var now := times[0];
      TimeKeepsFollowing(b, granted, t, now);
      CallKeepsFollowing(b, granted, now);
      CallKeepsSettings(b, now);
      BucketFollowsGrants(After(b, now), if Grants(b, now) then granted + [now] else granted, now, times[1..]);
    }
  }

  lemma FirstVerdict(b: Bucket, times: seq<real>)
    requires times != []
    ensures Verdicts(b, times) == [Grants(b, times[0])] + Verdicts(After(b, times[0]), times[1..])
  {
  }

  /** A limiter asked at the given times answers as the window limiter does. */
  method AnswerAll(capacity: int, rate: real, start: real, times: seq<real>) returns (verdicts: seq<bool>)
    requires Clocked(start, times)
    ensures verdicts == WindowVerdicts(capacity, rate, [], times)
  {
    var limiter := new RateLimiter(capacity, rate, start);
    verdicts := [];
    for i := 0 to |times|
      invariant fresh(limiter)
      invariant verdicts + Verdicts(limiter.State(), times[i..]) == Verdicts(Fresh(capacity, rate, start), times)
    {
      FirstVerdict(limiter.State(), times[i..]);
      assert times[i..][1..] == times[i + 1..];
      var granted := limiter.Acquire(times[i]);
      verdicts := verdicts + [granted];
    }
    BucketIsWindowLimiter(capacity, rate, start, times);
  }

  // ----- The rate bound over every window of every run

  lemma {:induction false} VerdictsSplit(b: Bucket, xs: seq<real>, ys: seq<real>)
    ensures Verdicts(b, xs + ys) == Verdicts(b, xs) + Verdicts(StateAfter(b, xs), ys)
    ensures StateAfter(b, xs + ys) == StateAfter(StateAfter(b, xs), ys)
    decreases |xs|
  {
    if xs == [] {
      assert xs + ys == ys;
    } else {
      assert (xs + ys)[1..] == xs[1..] + ys;
      VerdictsSplit(After(b, xs[0]), xs[1..], ys);
    }
  }

  ghost predicate Started(b: Bucket, start: real) {
    Valid(b) && b.lastRefill <= start
  }

  lemma GrantsAreBounded(b: Bucket, times: seq<real>, first: real, last: real)
    requires Started(b, first) && Clocked(first, times)
    requires times != [] && times[0] == first && times[|times| - 1] == last
    ensures Count(Verdicts(b, times)) as real <= Max(0.0, b.capacity as real) + Gain(b.refillRate, last - first)
  {
    LevelPaysForGrants(b, times, first);
  }

  /** Every granted call costs one token of the ideal level, and only time brings tokens in. */
  lemma {:induction false} LevelPaysForGrants(b: Bucket, times: seq<real>, t: real)
    requires Valid(b) && b.lastRefill <= t && Clocked(t, times) && times != []
    ensures Count(Verdicts(b, times)) as real + Min(0.0, b.capacity as real)
         <= Level(b, times[0]) + Gain(b.refillRate, times[|times| - 1] - times[0])
    decreases |times|
  {
    var now, rest := times[0], times[1..];
    LevelAdvances(b, t, now);
    CallSeesLevel(b, now);
    GainAdds(b.refillRate, now - b.lastRefill, 0.0);
    GainAdds(b.refillRate, times[|times| - 1] - now, 0.0);
    var a := After(b, now);
    var vs := Verdicts(b, times);
    assert vs[1..] == Verdicts(a, rest);
    if rest == [] {
      assert Count(vs) == if Grants(b, now) then 1 else 0;
    } else {
      LevelPaysForGrants(a, rest, now);
      LevelAdvances(a, now, rest[0]);
      GainAdds(b.refillRate, rest[0] - now, times[|times| - 1] - rest[0]);
    }
  }

  /** The state in which the i-th call of a run finds the bucket. */
  lemma {:induction false} StateBeforeCall(b: Bucket, times: seq<real>, start: real, i: nat)
    requires Started(b, start) && Clocked(start, times) && i < |times|
    ensures var m := StateAfter(b, times[..i]);
            && Started(m, times[i]) && Clocked(times[i], times[i..])
            && m.capacity == b.capacity && m.refillRate == b.refillRate
    decreases i
  {
    if i > 0 {
      CallKeepsRange(b, times[0]);
      CallSeesLevel(b, times[0]);
      StateBeforeCall(After(b, times[0]), times[1..], times[0], i - 1);
      assert times[..i][1..] == times[1..][..i - 1];
      assert times[i..] == times[1..][i - 1..];
    }
  }

  lemma WindowOfRun(b: Bucket, times: seq<real>, i: nat, j: nat)
    requires i <= j < |times|
    ensures Verdicts(b, times)[i..j + 1] == Verdicts(StateAfter(b, times[..i]), times[i..j + 1])
  {
    var before, window, rest := times[..i], times[i..j + 1], times[j + 1..];
    assert times == before + (window + rest);
    VerdictsSplit(b, before, window + rest);
    VerdictsSplit(StateAfter(b, before), window, rest);
    assert Verdicts(b, times) == Verdicts(b, before)
        + (Verdicts(StateAfter(b, before), window) + Verdicts(StateAfter(StateAfter(b, before), window), rest));
  }

  lemma {:induction false} ClockedPrefix(start: real, times: seq<real>, n: nat)
    requires Clocked(start, times) && n <= |times|
    ensures Clocked(start, times[..n])
    decreases n
  {
    if n > 0 {
      ClockedPrefix(times[0], times[1..], n - 1);
      assert times[..n][1..] == times[1..][..n - 1];
    }
  }

  lemma WindowStarts(b: Bucket, start: real, times: seq<real>, i: nat, j: nat)
    requires Started(b, start) && Clocked(start, times) && i <= j < |times|
    ensures var m := StateAfter(b, times[..i]);
            && Started(m, times[i]) && Clocked(times[i], times[i..j + 1])
            && m.capacity == b.capacity && m.refillRate == b.refillRate
  {
    StateBeforeCall(b, times, start, i);
    ClockedPrefix(times[i], times[i..], j + 1 - i);
    assert times[i..j + 1] == times[i..][..j + 1 - i];
  }

  lemma GrantsFromAreBounded(m: Bucket, times: seq<real>, i: nat, j: nat)
    requires i <= j < |times| && Started(m, times[i]) && Clocked(times[i], times[i..j + 1])
    ensures Count(Verdicts(m, times[i..j + 1])) as real
         <= Max(0.0, m.capacity as real) + Gain(m.refillRate, times[j] - times[i])
  {
    GrantsAreBounded(m, times[i..j + 1], times[i], times[j]);
  }

  lemma WindowIsBounded(b: Bucket, start: real, times: seq<real>, i: nat, j: nat)
    requires Started(b, start) && Clocked(start, times) && i <= j < |times|
    ensures Count(Verdicts(b, times)[i..j + 1]) as real
         <= Max(0.0, b.capacity as real) + Gain(b.refillRate, times[j] - times[i])
  {
    WindowStarts(b, start, times, i, j);
    GrantsFromAreBounded(StateAfter(b, times[..i]), times, i, j);
    WindowOfRun(b, times, i, j);
  }

  /** In every run, the calls granted from the i-th to the j-th, both included, number at most
      capacity + refill_rate * (time between them). */
  lemma EveryWindowIsBounded(capacity: int, rate: real, start: real, times: seq<real>, i: nat, j: nat)
    requires Clocked(start, times) && i <= j < |times|
    ensures Count(Verdicts(Fresh(capacity, rate, start), times)[i..j + 1]) as real
         <= Max(0.0, capacity as real) + Gain(rate, times[j] - times[i])
  {
    WindowIsBounded(Fresh(capacity, rate, start), start, times, i, j);
  }

  // ----- Denied calls leave no trace

  function Select<T>(s: seq<T>, keep: seq<bool>): (r: seq<T>)
    requires |s| == |keep|
  {
    if s == [] then [] else (if keep[0] then [s[0]] else []) + Select(s[1..], keep[1..])
  }

  /** Dropping any set of denied calls from a run leaves every other verdict as it was; read
      from right to left, inserting calls that are denied changes nothing either. */
  lemma DeniedCallsAreInvisible(capacity: int, rate: real, start: real, times: seq<real>, keep: seq<bool>)
    requires Clocked(start, times) && |keep| == |times|
    requires forall i | 0 <= i < |times| && !keep[i] :: !Verdicts(Fresh(capacity, rate, start), times)[i]
    ensures Verdicts(Fresh(capacity, rate, start), Select(times, keep))
         == Select(Verdicts(Fresh(capacity, rate, start), times), keep)
  {
    var b := Fresh(capacity, rate, start);
    SameLevelSameVerdicts(b, b, start, times, keep);
  }

  lemma {:induction false} SameLevelSameVerdicts(b: Bucket, c: Bucket, t: real, times: seq<real>, keep: seq<bool>)
    requires Clocked(t, times) && |keep| == |times|
    requires b.capacity == c.capacity && b.refillRate == c.refillRate
    requires b.tokens <= b.capacity as real && b.lastRefill <= t
    requires c.tokens <= c.capacity as real && c.lastRefill <= t
    requires Level(b, t) == Level(c, t)
    requires forall i | 0 <= i < |times| && !keep[i] :: !Verdicts(b, times)[i]
    ensures Verdicts(c, Select(times, keep)) == Select(Verdicts(b, times), keep)
    decreases |times|
  {
    if times != [] {
      var now, vs := times[0], Verdicts(b, times);
      LevelAdvances(b, t, now);
      LevelAdvances(c, t, now);
      CallSeesLevel(b, now);
      CallSeesLevel(c, now);
      var b' := After(b, now);
      assert vs[1..] == Verdicts(b', times[1..]);
      forall i | 0 <= i < |times[1..]| && !keep[1..][i] ensures !Verdicts(b', times[1..])[i] {
        assert !vs[i + 1];
      }
      if keep[0] {
        var kept := Select(times, keep);
        assert kept[1..] == Select(times[1..], keep[1..]);
        SameLevelSameVerdicts(b', After(c, now), now, times[1..], keep[1..]);
      } else {
        assert !vs[0];
        assert Select(times, keep) == Select(times[1..], keep[1..]);
        assert Select(vs, keep) == Select(vs[1..], keep[1..]);
        SameLevelSameVerdicts(b', c, now, times[1..], keep[1..]);
      }
    }
  }
}
