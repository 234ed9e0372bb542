/** plan_automatic_restart: at most so many restarts per window, each later than the last. */
module RestartPolicy {

  datatype Config = Config(delay: int, maxDelay: int, window: int, maxAttempts: int, resetAfter: int)
  datatype Decision = Decision(restart: bool, suppressed: bool, delay: int, attemptsInWindow: int)

  function Max(a: int, b: int): int { if a > b then a else b }
  function Min(a: int, b: int): int { if a < b then a else b }

  function Power2(n: nat): (p: nat)
    ensures p >= 1
  {
    if n == 0 then 1 else 2 * Power2(n - 1)
  }

  /** The delay of the restart after `failures` consecutive failures. */
  function Backoff(config: Config, failures: nat): int {
    var base := Max(0, config.delay);
    Min(Max(base, config.maxDelay), base * Power2(failures))
  }

  lemma {:induction false} PowerGrows(n: nat, m: nat)
    requires n <= m
    ensures Power2(n) <= Power2(m)
    decreases m - n
  {
    if n < m { PowerGrows(n, m - 1); }
  }

  lemma Monotone(base: int, a: int, b: int)
    requires base >= 0 && a <= b
    ensures base * a <= base * b
  {}

  lemma BackoffReached(config: Config, i: nat, failures: nat)
    requires i <= failures && Backoff(config, i) >= Max(Max(0, config.delay), config.maxDelay)
    ensures Backoff(config, failures) == Backoff(config, i)
  {
    PowerGrows(i, failures);
    Monotone(Max(0, config.delay), Power2(i), Power2(failures));
  }

  lemma BackoffDoubles(config: Config, i: nat)
    requires Backoff(config, i) < Max(Max(0, config.delay), config.maxDelay)
    ensures Backoff(config, i + 1) == Min(Max(Max(0, config.delay), config.maxDelay), Backoff(config, i) * 2)
  {}

  /** The first delay is the base; each later one is twice as long, up to the maximum. */
  lemma BackoffSchedule(config: Config, k: nat)
    ensures var base := if config.delay > 0 then config.delay else 0;
      var longest := if config.maxDelay > base then config.maxDelay else base;
      && Backoff(config, 0) == base
      && Backoff(config, k + 1) == if 2 * Backoff(config, k) <= longest then 2 * Backoff(config, k) else longest
  {
    if Backoff(config, k) < Max(Max(0, config.delay), config.maxDelay) {
      BackoffDoubles(config, k);
    } else {
      BackoffReached(config, k, k + 1);
    }
  }

  /** Grants `k` and `k + max` are at least a window apart. */
  ghost predicate Spaced(grants: seq<int>, max: int, window: int) {
    max > 0 ==> forall k :: 0 <= k && k + max < |grants| ==> grants[k + max] - grants[k] >= window
  }

  ghost predicate Ordered(times: seq<int>) {
    forall i, j :: 0 <= i <= j < |times| ==> times[i] <= times[j]
  }

  /** `attempts` are the latest of the grants, and the `grants` before them are a window old. */
  ghost predicate Remembers(grants: seq<int>, attempts: seq<int>, clock: int, window: int) {
    && |attempts| <= |grants|
    && attempts == grants[|grants| - |attempts|..]
    && (forall k :: 0 <= k < |grants| ==> grants[k] <= clock)
    && (forall k :: 0 <= k < |grants| - |attempts| ==> clock - grants[k] >= window)
  }

  lemma ForgetFirst(grants: seq<int>, attempts: seq<int>, clock: int, window: int)
    requires Remembers(grants, attempts, clock, window) && attempts != [] && clock - attempts[0] >= window
    ensures Remembers(grants, attempts[1..], clock, window)
  {}

  ghost predicate Consistent(config: Config, grants: seq<int>, attempts: seq<int>, failures: nat, clock: int) {
    && Remembers(grants, attempts, clock, Max(0, config.window))
    && failures == |grants|
    && Ordered(grants)
    && (config.maxAttempts > 0 ==> |attempts| <= config.maxAttempts)
    && Spaced(grants, config.maxAttempts, Max(0, config.window))
  }

  lemma GrantNext(config: Config, grants: seq<int>, attempts: seq<int>, failures: nat, clock: int)
    requires Consistent(config, grants, attempts, failures, clock)
    requires config.maxAttempts > 0 ==> |attempts| < config.maxAttempts
    ensures Consistent(config, grants + [clock], attempts + [clock], failures + 1, clock)
  {}

  class Policy {
    const config: Config
    var attempts: seq<int>
    var consecutiveFailures: nat
    var suppressed: bool

    // the times of all grants since the last reset, and the last time of a call
    ghost var grants: seq<int>
    ghost var clock: int

    /** The remembered attempts are the latest grants; the forgotten ones are a window old. */
    ghost predicate Valid()
      reads this
    {
      Consistent(config, grants, attempts, consecutiveFailures, clock)
    }

    constructor (config: Config, now: int)
      ensures Valid() && this.config == config && grants == [] && clock == now
    {
      this.config := config;
      attempts, consecutiveFailures, suppressed, grants, clock := [], 0, false, [], now;
    }

    method Reset()
      requires Valid()
      modifies this
      ensures Valid() && attempts == [] && consecutiveFailures == 0 && !suppressed
      ensures grants == [] && clock == old(clock)
    {
      attempts, consecutiveFailures, suppressed, grants := [], 0, false, [];
    }

    /** Forgets the attempts that lie a window or more in the past, and no others. */
    method Prune(now: int)
      requires Valid() && clock <= now
      modifies this`attempts, this`clock
      ensures Valid() && clock == now
      ensures attempts != [] ==> now - attempts[0] < Max(0, config.window)
    {
      clock := now;
      var window := Max(0, config.window);
      while attempts != [] && now - attempts[0] >= window
        invariant Remembers(grants, attempts, now, window) && clock == now
        invariant |attempts| <= |old(attempts)|
        decreases |attempts|
      {
        ForgetFirst(grants, attempts, now, window);
        attempts := attempts[1..];
      }
    }

    /** The doubling loop. */
    method Delay() returns (delay: int)
      ensures delay == Backoff(config, consecutiveFailures)
    {
      var base := Max(0, config.delay);
      var maximum := Max(base, config.maxDelay);
      delay := base;
      var i := 0;
      while i < consecutiveFailures && delay < maximum
        invariant 0 <= i <= consecutiveFailures && delay == Backoff(config, i)
      {
        BackoffDoubles(config, i);
        delay := Min(maximum, delay * 2);
        i := i + 1;
      }
      if i < consecutiveFailures { BackoffReached(config, i, consecutiveFailures); }
    }

    /** Grants unless the last `maxAttempts` grants all lie within the window. */
    method Plan(now: int, runtime: int) returns (decision: Decision)
      requires Valid() && clock <= now
      modifies this
      ensures Valid() && clock == now
      ensures decision.restart <==> !decision.suppressed
      ensures suppressed == decision.suppressed && decision.attemptsInWindow == |attempts|
      ensures
        var reset := config.resetAfter > 0 && runtime >= config.resetAfter;
        var before := if reset then [] else old(grants);
        && (decision.suppressed <==> WindowFull(before, config, now))
        && grants == before + (if decision.restart then [now] else [])
        && (decision.restart ==> decision.delay == Backoff(config, |before|))
      ensures decision.suppressed ==> ExactlyUnexpired(grants, attempts, config, now)
      ensures
        var reset := config.resetAfter > 0 && runtime >= config.resetAfter;
        var recent := Within(if reset then [] else old(grants), now, if config.window > 0 then config.window else 0);
        && (decision.suppressed <==> config.maxAttempts > 0 && recent >= config.maxAttempts)
        && decision.attemptsInWindow == recent + if decision.restart then 1 else 0
    {
      if config.resetAfter > 0 && runtime >= config.resetAfter { Reset(); }
      decision := Decide(now);
    }

    method Decide(now: int) returns (decision: Decision)
      requires Valid() && clock <= now
      modifies this
      ensures Valid() && clock == now
      ensures decision.restart <==> !decision.suppressed
      ensures suppressed == decision.suppressed && decision.attemptsInWindow == |attempts|
      ensures decision.suppressed <==> WindowFull(old(grants), config, now)
      ensures grants == old(grants) + (if decision.restart then [now] else [])
      ensures decision.restart ==> decision.delay == Backoff(config, |old(grants)|)
      ensures decision.suppressed ==> ExactlyUnexpired(grants, attempts, config, now)
      ensures
        var recent := Within(old(grants), now, Max(0, config.window));
        && (decision.suppressed <==> config.maxAttempts > 0 && recent >= config.maxAttempts)
        && decision.attemptsInWindow == recent + if decision.restart then 1 else 0
    {
      Prune(now);
      FullIffRemembered(grants, attempts, config, now);
      UnexpiredIsCounted(grants, attempts, config, now);
      assert grants + [] == grants;
      if config.maxAttempts > 0 && |attempts| >= config.maxAttempts {
        suppressed := true;
        return Decision(false, true, 0, |attempts|);
      }
      decision := Grant(now);
    }

    method Grant(now: int) returns (decision: Decision)
      requires Valid() && clock == now && (config.maxAttempts > 0 ==> |attempts| < config.maxAttempts)
      modifies this
      ensures Valid() && clock == now && grants == old(grants) + [now] && !suppressed
      ensures decision == Decision(true, false, Backoff(config, |old(grants)|), |old(attempts)| + 1)
      ensures |attempts| == |old(attempts)| + 1
    {
      var delay := Delay();
      GrantNext(config, grants, attempts, consecutiveFailures, now);
      attempts := attempts + [now];
      consecutiveFailures := consecutiveFailures + 1;
      suppressed := false;
      grants := grants + [now];
      decision := Decision(true, false, delay, |attempts|);
    }
  }

  /** The last `maxAttempts` grants all lie less than a window in the past. */
  ghost predicate WindowFull(grants: seq<int>, config: Config, now: int) {
    && config.maxAttempts > 0 && |grants| >= config.maxAttempts
    && now - grants[|grants| - config.maxAttempts] < Max(0, config.window)
  }

  /** The remembered attempts are the grants that lie less than a window in the past. */
  ghost predicate ExactlyUnexpired(grants: seq<int>, attempts: seq<int>, config: Config, now: int) {
    && |attempts| <= |grants| && attempts == grants[|grants| - |attempts|..]
    && forall k :: 0 <= k < |grants| ==>
      (k >= |grants| - |attempts| <==> now - grants[k] < Max(0, config.window))
  }

  /** How many grants lie less than a window in the past. */
  ghost function Within(grants: seq<int>, now: int, window: int): (n: nat)
    ensures n <= |grants|
  {
    if grants == [] then 0
    else
      var last := |grants| - 1;
      Within(grants[..last], now, window) + if now - grants[last] < window then 1 else 0
  }

  lemma {:induction false} NoneWithin(grants: seq<int>, now: int, window: int)
    requires forall k :: 0 <= k < |grants| ==> now - grants[k] >= window
    ensures Within(grants, now, window) == 0
  {
    if grants != [] { NoneWithin(grants[..|grants| - 1], now, window); }
  }

  /** What is remembered is counted. */
  lemma {:induction false} UnexpiredIsCounted(grants: seq<int>, attempts: seq<int>, config: Config, now: int)
    requires ExactlyUnexpired(grants, attempts, config, now)
    ensures Within(grants, now, Max(0, config.window)) == |attempts|
  {
    if attempts == [] {
      NoneWithin(grants, now, Max(0, config.window));
    } else {
      var last := |grants| - 1;
      assert attempts[..|attempts| - 1] == grants[..last][last - (|attempts| - 1)..];
      UnexpiredIsCounted(grants[..last], attempts[..|attempts| - 1], config, now);
    }
  }

  lemma FullIffRemembered(grants: seq<int>, attempts: seq<int>, config: Config, now: int)
    requires Remembers(grants, attempts, now, Max(0, config.window)) && Ordered(grants)
    requires config.maxAttempts > 0 ==> |attempts| <= config.maxAttempts
    requires attempts != [] ==> now - attempts[0] < Max(0, config.window)
    ensures WindowFull(grants, config, now) <==> config.maxAttempts > 0 && |attempts| >= config.maxAttempts
    ensures ExactlyUnexpired(grants, attempts, config, now)
  {}

  /** No half-open window of that length holds more than `max` grants: the one that is `max` after
      a grant inside the window lies beyond its end. */
  lemma WindowNeverOverfull(grants: seq<int>, max: int, window: int, from: int, i: nat, j: nat)
    requires max > 0 && Spaced(grants, max, window) && Ordered(grants)
    requires i <= j < |grants| && from <= grants[i]
    ensures j - i >= max ==> grants[j] >= from + window
  {
    if j - i >= max {
      assert grants[i + max] - grants[i] >= window;
    }
  }
}
