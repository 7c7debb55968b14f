/** The headers of a 429 response, and what the two durations in them promise the client. */
module RateLimitHeaders {
  import opened Wrappers
  import opened Rounding
  import opened TokenBucket
  import opened BucketRun

  datatype RouteOverride = RouteOverride(disabled: bool, requestsPerSecond: Option<real>, burst: Option<int>) {

    /** What the configuration accepts. */
    predicate Valid() {
      if disabled then requestsPerSecond.None? && burst.None?
      else
        && (requestsPerSecond.Some? || burst.Some?)
        && (requestsPerSecond.Some? ==> requestsPerSecond.value > 0.0)
        && (burst.Some? ==> burst.value > 0)
    }
  }

  /** The policy that applies to a route, or None when limiting is switched off for it. */
  function ResolvePolicy(defaultPolicy: Policy, overrides: map<string, RouteOverride>, route: string): Option<Policy> {
    if route !in overrides then Some(defaultPolicy)
    else
      var o := overrides[route];
      if o.disabled then None
      else Some(Policy(
        if o.requestsPerSecond.Some? then o.requestsPerSecond.value else defaultPolicy.requestsPerSecond,
        if o.burst.Some? then o.burst.value else defaultPolicy.burst))
  }

  /** With a valid default, accepted overrides never lead to a policy the store rejects, on any route. */
  lemma AcceptedOverridesResolveValid(defaultPolicy: Policy, overrides: map<string, RouteOverride>, route: string)
    requires defaultPolicy.Valid() && forall r :: r in overrides ==> overrides[r].Valid()
    ensures var policy := ResolvePolicy(defaultPolicy, overrides, route);
            && (policy.Some? ==> policy.value.Valid())
            && (policy.None? <==> route in overrides && overrides[route].disabled)
  {
  }

  /** Each field an override sets replaces the default's, each it leaves out keeps it; other routes see nothing of it. */
  lemma OverrideReplacesFieldByField(
    defaultPolicy: Policy, overrides: map<string, RouteOverride>, route: string, o: RouteOverride, other: string)
    ensures var policy := ResolvePolicy(defaultPolicy, overrides[route := o], route);
            && (policy == None <==> o.disabled)
            && (forall rate :: !o.disabled && o.requestsPerSecond == Some(rate) ==> policy.value.requestsPerSecond == rate)
            && (forall burst :: !o.disabled && o.burst == Some(burst) ==> policy.value.burst == burst)
            && (!o.disabled && o.requestsPerSecond == None ==>
                  policy.value.requestsPerSecond == defaultPolicy.requestsPerSecond)
            && (!o.disabled && o.burst == None ==> policy.value.burst == defaultPolicy.burst)
    ensures other != route ==>
              ResolvePolicy(defaultPolicy, overrides[route := o], other) == ResolvePolicy(defaultPolicy, overrides, other)
    ensures ResolvePolicy(defaultPolicy, map[], route) == Some(defaultPolicy)
  {
  }

  /** The numbers in Retry-After, RateLimit and RateLimit-Policy. */
  datatype Headers = Headers(retryAfterSeconds: int, remaining: int, quota: int, windowSeconds: int)

  function DelaySeconds(delayNanos: int): int {
    if delayNanos <= 0 then 1
    else Max(1, Ceil(delayNanos as real / NANOS_PER_SECOND as real))
  }

  function PolicyWindowSeconds(p: Policy): int {
    if !p.Valid() then 1 else Max(1, Ceil(p.Capacity() / p.requestsPerSecond))
  }

  function HeaderValues(p: Policy, d: Decision): Headers {
    Headers(DelaySeconds(d.retryAfter), Max(0, d.remaining), Max(0, p.burst), PolicyWindowSeconds(p))
  }

  /** The decision and the header a caller gets for one run of the script. */
  function RetryAfterSeconds(p: Policy, h: Hash, nowMs: int): int
    requires p.Valid()
  {
    HeaderValues(p, Decode(Script(p, h, nowMs).reply)).retryAfterSeconds
  }

  /** A caller who waits n whole seconds after the request at `nowMs` gets through. */
  predicate AllowedAfter(p: Policy, h: Hash, nowMs: int, n: int)
    requires p.Valid()
  {
    Allows(p, Script(p, h, nowMs).hash, nowMs + 1000 * n)
  }

  /** Waiting n whole seconds suffices exactly when n is at least the header's value. */
  ghost predicate HeaderIsExact(p: Policy, h: Hash, nowMs: int)
    requires p.Valid()
  {
    var seconds := RetryAfterSeconds(p, h, nowMs);
    seconds >= 1 &&
    forall n: int :: AllowedAfter(p, h, nowMs, n) <==> n >= seconds
  }

  /** The other numbers of a 429: what the script says is left, which is then nothing, and the burst as the quota. */
  lemma DenialHeaders(p: Policy, h: Hash, nowMs: int)
    requires p.Valid() && h.Reachable() && Script(p, h, nowMs).reply.allowed != 1
    ensures var headers := HeaderValues(p, Decode(Script(p, h, nowMs).reply));
            headers.remaining == Script(p, h, nowMs).reply.remaining == 0 && headers.quota == p.burst
  {
    LevelBounds(p, h, nowMs);
  }

  /** The Go side keeps the verdict, and the remaining count of a request that was let through. */
  lemma DecisionIsTheReply(p: Policy, h: Hash, nowMs: int)
    requires p.Valid() && h.Reachable()
    ensures var reply, d := Script(p, h, nowMs).reply, Decode(Script(p, h, nowMs).reply);
            && (d.allowed <==> Allows(p, h, nowMs)) && d.remaining == reply.remaining >= 0
            && (d.allowed ==> d.retryAfter == 0)
  {
    LevelBounds(p, h, nowMs);
  }

  /** Whatever the reply and the policy, both durations are at least a second and no count is negative. */
  lemma HeadersHaveMinimum(p: Policy, reply: Reply)
    ensures var headers := HeaderValues(p, Decode(reply));
            && headers.retryAfterSeconds >= 1 && headers.windowSeconds >= 1
            && headers.remaining >= 0 && headers.quota >= 0
            && (reply.retryAfterMs <= 0 ==> headers.retryAfterSeconds == 1)
            && (!p.Valid() ==> headers.windowSeconds == 1)
  {
  }

  /** The longest wait in milliseconds that fits a 64-bit count of nanoseconds. */
  const MAX_WAIT_MS: int := MAX_INT64 / NANOS_PER_MILLISECOND

  /** Seconds rounded up from nanoseconds are seconds rounded up from milliseconds. */
  lemma DelayOfMilliseconds(ms: int, n: int)
    requires ms >= 1
    ensures n >= DelaySeconds(ms * NANOS_PER_MILLISECOND) <==> 1000 * n >= ms
  {
    var seconds := (ms * NANOS_PER_MILLISECOND) as real / NANOS_PER_SECOND as real;
    assert seconds == ms as real / 1000.0;
    CeilIsLeast(seconds, n);
    CeilIsLeast(seconds, 0);
  }

  /** A wait too long for 64 bits wraps to a header that is far too short. */
  lemma WrappedDelayIsShort(ms: int)
    requires ms > MAX_WAIT_MS
    ensures 1000 * DelaySeconds(WrapInt64(ms * NANOS_PER_MILLISECOND)) < ms
  {
    var nanos := ms * NANOS_PER_MILLISECOND;
    var wrapped := WrapInt64(nanos);
    assert nanos > MAX_INT64;
    assert wrapped <= nanos - TWO_TO_THE_64;
    if wrapped > 0 {
      var seconds := wrapped as real / NANOS_PER_SECOND as real;
      CeilIsLeast(seconds, wrapped / NANOS_PER_SECOND + 1);
    }
  }

  lemma FittingWaitIsExact(p: Policy, h: Hash, nowMs: int)
    requires p.Valid() && h.Reachable() && !Allows(p, h, nowMs)
    requires Script(p, h, nowMs).reply.retryAfterMs <= MAX_WAIT_MS
    ensures HeaderIsExact(p, h, nowMs)
  {
    var ms := Script(p, h, nowMs).reply.retryAfterMs;
    RetryHintIsExact(p, h, nowMs, nowMs);
    assert RetryAfterSeconds(p, h, nowMs) == DelaySeconds(ms * NANOS_PER_MILLISECOND);
    forall n: int
      ensures AllowedAfter(p, h, nowMs, n) <==> n >= DelaySeconds(ms * NANOS_PER_MILLISECOND)
    {
      WaitOfSeconds(p, h, nowMs, n);
    }
  }

  lemma WaitOfSeconds(p: Policy, h: Hash, nowMs: int, n: int)
    requires p.Valid() && h.Reachable() && !Allows(p, h, nowMs)
    ensures AllowedAfter(p, h, nowMs, n)
            <==> n >= DelaySeconds(Script(p, h, nowMs).reply.retryAfterMs * NANOS_PER_MILLISECOND)
  {
    RetryHintIsExact(p, h, nowMs, nowMs + 1000 * n);
    DelayOfMilliseconds(Script(p, h, nowMs).reply.retryAfterMs, n);
  }

  lemma WrappedWaitIsNotExact(p: Policy, h: Hash, nowMs: int)
    requires p.Valid() && h.Reachable() && !Allows(p, h, nowMs)
    requires Script(p, h, nowMs).reply.retryAfterMs > MAX_WAIT_MS
    ensures !HeaderIsExact(p, h, nowMs)
  {
    var seconds := RetryAfterSeconds(p, h, nowMs);
    WrappedDelayIsShort(Script(p, h, nowMs).reply.retryAfterMs);
    RetryHintIsExact(p, h, nowMs, nowMs + 1000 * seconds);
    assert !AllowedAfter(p, h, nowMs, seconds);
  }

  /**
   Retry-After is the least whole number of seconds that suffices if and only if the wait fits the
   64-bit duration it passes through.
   */
  lemma RetryAfterExactIffItFits(p: Policy, h: Hash, nowMs: int)
    requires p.Valid() && h.Reachable() && !Allows(p, h, nowMs)
    ensures HeaderIsExact(p, h, nowMs) <==> Script(p, h, nowMs).reply.retryAfterMs <= MAX_WAIT_MS
  {
    if Script(p, h, nowMs).reply.retryAfterMs <= MAX_WAIT_MS {
      FittingWaitIsExact(p, h, nowMs);
    } else {
      WrappedWaitIsNotExact(p, h, nowMs);
    }
  }

  const SLOWEST := Policy(0.00000000001, 1)
  const SPENT := Hash(Some(0.0), Some(0))

  lemma SlowestReply()
    ensures Script(SLOWEST, SPENT, 0).reply == Reply(0, 0, 100_000_000_000_000)
  {
    assert Level(SLOWEST, SPENT, 0) == 0.0;
    assert (1.0 / 0.00000000001) * 1000.0 == 100_000_000_000_000.0;
  }

  lemma SlowestWaitWraps()
    ensures WrapInt64(100_000_000_000_000 * NANOS_PER_MILLISECOND) == 7_766_279_631_452_241_920
  {
    var nanos := 100_000_000_000_000 * NANOS_PER_MILLISECOND;
    assert nanos == 5 * TWO_TO_THE_64 + 7_766_279_631_452_241_920;
  }

  lemma SlowestHeader()
    ensures DelaySeconds(7_766_279_631_452_241_920) == 7_766_279_632
  {
    var seconds := 7_766_279_631_452_241_920 as real / NANOS_PER_SECOND as real;
    assert seconds == 7_766_279_631.45224192;
    CeilIsLeast(seconds, 7_766_279_631);
    CeilIsLeast(seconds, 7_766_279_632);
  }

  /** The configuration accepts one request per 100 billion seconds; its header then says 7766279632. */
  lemma SlowRateHeaderWraps()
    ensures SLOWEST.Valid() && SPENT.Reachable() && !Allows(SLOWEST, SPENT, 0)
    ensures Script(SLOWEST, SPENT, 0).reply.retryAfterMs == 100_000_000_000_000 > MAX_WAIT_MS
    ensures RetryAfterSeconds(SLOWEST, SPENT, 0) == 7_766_279_632
    ensures !HeaderIsExact(SLOWEST, SPENT, 0)
  {
    SlowestReply();
    SlowestWaitWraps();
    SlowestHeader();
    RetryAfterExactIffItFits(SLOWEST, SPENT, 0);
  }

  /** At one request per 100 million seconds or faster the wait always fits. */
  lemma UsualRatesFit(p: Policy, h: Hash, nowMs: int)
    requires p.Valid() && h.Reachable() && p.requestsPerSecond >= 0.00000001
    ensures Script(p, h, nowMs).reply.retryAfterMs <= MAX_WAIT_MS
  {
    LevelBounds(p, h, nowMs);
    var r, shortfall := p.requestsPerSecond, 1.0 - Level(p, h, nowMs);
    if shortfall > 0.0 {
      var q := shortfall / r;
      assert q * r == shortfall;
      if q > 100_000_000.0 {
        ScaleUp(100_000_000.0, q, r);
        assert false;
      }
      CeilIsLeast(q * 1000.0, 100_000_000_000);
    }
  }

  /**
   The advertised window refills any bucket, and no shorter whole number of seconds refills an
   empty one.
   */
  lemma PolicyWindowIsLeastFullRefill(p: Policy, h: Hash, n: int)
    requires p.Valid() && h.Written() && n >= 1
    ensures n >= PolicyWindowSeconds(p) ==> Level(p, h, h.updatedAtMs.value + 1000 * n) == p.Capacity()
    ensures h.tokens.value == 0.0 && Level(p, h, h.updatedAtMs.value + 1000 * n) == p.Capacity()
            ==> n >= PolicyWindowSeconds(p)
  {
    var fill := p.Capacity() / p.requestsPerSecond;
    CeilIsLeast(fill, n);
    CeilIsLeast(fill * 1000.0, 1000 * n);
    RefillReaches(p, 1000 * n, p.Capacity());
  }
}
