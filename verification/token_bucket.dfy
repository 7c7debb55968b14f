/**
 The token-bucket script that the rate limiter runs inside Valkey, one atomic step per call,
 and the Go wrapper around it.
 */
module TokenBucket {
  import opened Wrappers
  import opened Rounding

  datatype Policy = Policy(requestsPerSecond: real, burst: int) {
    predicate Valid() {
      requestsPerSecond > 0.0 && burst > 0
    }

    function Capacity(): real {
      burst as real
    }
  }

  /** The two fields of the stored hash; HMGET reports each of them as missing on its own. */
  datatype Hash = Hash(tokens: Option<real>, updatedAtMs: Option<int>) {

    /** What every call of the script writes: both fields, and never a negative token count. */
    predicate Written() {
      tokens.Some? && updatedAtMs.Some? && tokens.value >= 0.0
    }

    /** Nothing is stored, or something the script has written. */
    predicate Reachable() {
      this == MISSING || Written()
    }
  }

  const MISSING := Hash(None, None)

  /** The three integers the script returns. */
  datatype Reply = Reply(allowed: int, remaining: int, retryAfterMs: int)

  datatype ScriptResult = ScriptResult(hash: Hash, ttlMs: int, reply: Reply)

  /** Tokens earned in `ms` milliseconds. */
  function Refill(p: Policy, ms: int): real {
    (ms as real / 1000.0) * p.requestsPerSecond
  }

  /** The time the script measures its refill from: never later than its own clock reading. */
  function RefillStart(h: Hash, nowMs: int): int {
    if h.updatedAtMs.None? || h.updatedAtMs.value > nowMs then nowMs else h.updatedAtMs.value
  }

  /** Tokens in the bucket when a request at `nowMs` is decided. */
  function Level(p: Policy, h: Hash, nowMs: int): real {
    var tokens := if h.tokens.None? then p.Capacity() else h.tokens.value;
    MinReal(p.Capacity(), tokens + Refill(p, nowMs - RefillStart(h, nowMs)))
  }

  function TtlMs(p: Policy): int
    requires p.Valid()
  {
    Max(Ceil((p.Capacity() / p.requestsPerSecond) * 2000.0), 1000)
  }

  /** One run of the script: refill, cap, spend or compute the wait, store, set the expiry. */
  function Script(p: Policy, h: Hash, nowMs: int): ScriptResult
    requires p.Valid()
  {
    var level := Level(p, h, nowMs);
    var allowed := level >= 1.0;
    var tokens := if allowed then level - 1.0 else level;
    var retryAfterMs :=
      if allowed then 0 else Ceil(((1.0 - level) / p.requestsPerSecond) * 1000.0);
    ScriptResult(
      Hash(Some(tokens), Some(nowMs)),
      TtlMs(p),
      Reply(if allowed then 1 else 0, tokens.Floor, retryAfterMs))
  }

  predicate Allows(p: Policy, h: Hash, nowMs: int)
    requires p.Valid()
  {
    Script(p, h, nowMs).reply.allowed == 1
  }

  // ---- the Go side of one call ----

  const NANOS_PER_MILLISECOND := 1_000_000
  const NANOS_PER_SECOND := 1_000_000_000

  /** `retryAfter` is a 64-bit count of nanoseconds. */
  datatype Decision = Decision(allowed: bool, remaining: int, retryAfter: int)

  function Decode(reply: Reply): Decision {
    Decision(
      reply.allowed == 1,
      Max(0, reply.remaining),
      WrapInt64(Max(0, reply.retryAfterMs) * NANOS_PER_MILLISECOND))
  }

  function IdleTtlNanos(p: Policy): int {
    if !p.Valid() then NANOS_PER_SECOND
    else Max(Ceil(p.Capacity() / p.requestsPerSecond * 2.0 * NANOS_PER_SECOND as real), NANOS_PER_SECOND)
  }

  // ---- facts about a single step ----

  lemma RefillAdds(p: Policy, a: int, b: int)
    ensures Refill(p, a + b) == Refill(p, a) + Refill(p, b)
  {
    var r := p.requestsPerSecond;
    assert (a + b) as real / 1000.0 == a as real / 1000.0 + b as real / 1000.0;
    assert (a as real / 1000.0 + b as real / 1000.0) * r == (a as real / 1000.0) * r + (b as real / 1000.0) * r;
  }

  lemma RefillNonNegative(p: Policy, ms: int)
    requires p.Valid() && ms >= 0
    ensures Refill(p, ms) >= 0.0
  {
    assert (ms as real / 1000.0) * p.requestsPerSecond >= 0.0;
  }

  /** `ms` milliseconds earn `amount` tokens exactly when `ms` is at least the rounded-up wait. */
  lemma RefillReaches(p: Policy, ms: int, amount: real)
    requires p.Valid()
    ensures Refill(p, ms) >= amount <==> ms >= Ceil((amount / p.requestsPerSecond) * 1000.0)
  {
    var r := p.requestsPerSecond;
    var wait := (amount / r) * 1000.0;
    CeilIsLeast(wait, ms);
    var q := amount / r;
    assert q * r == amount;
    var m := ms as real / 1000.0;
    assert m * r - q * r == (m - q) * r;
    if m >= q {
      assert (m - q) * r >= 0.0;
    } else {
      assert (q - m) * r > 0.0;
    }
  }

  /** The bucket never holds more than the burst or less than nothing, and the script keeps it so. */
  lemma LevelBounds(p: Policy, h: Hash, nowMs: int)
    requires p.Valid() && h.Reachable()
    ensures 0.0 <= Level(p, h, nowMs) <= p.Capacity()
    ensures Script(p, h, nowMs).hash.Written()
  {
    RefillNonNegative(p, nowMs - RefillStart(h, nowMs));
  }

  /** What the next request sees: the level left behind plus the refill of a forward clock step. */
  lemma LevelAfter(p: Policy, h: Hash, nowMs: int, nextMs: int)
    requires p.Valid()
    ensures Level(p, Script(p, h, nowMs).hash, nextMs)
         == MinReal(p.Capacity(),
                    Level(p, h, nowMs) - (if Allows(p, h, nowMs) then 1.0 else 0.0)
                    + Refill(p, Max(0, nextMs - nowMs)))
  {
  }

  /** The key outlives a full refill twice over, so an expired key would have been full anyway. */
  lemma ExpiredBucketIsFull(p: Policy, h: Hash, nowMs: int)
    requires p.Valid() && h.Written() && nowMs > h.updatedAtMs.value + TtlMs(p)
    ensures Level(p, h, nowMs) == p.Capacity()
    ensures Script(p, h, nowMs) == Script(p, MISSING, nowMs)
  {
    var elapsed := nowMs - h.updatedAtMs.value;
    var fill := p.Capacity() / p.requestsPerSecond;
    assert fill >= 0.0;
    CeilIsLeast(fill * 2000.0, elapsed);
    CeilIsLeast(fill * 1000.0, elapsed);
    RefillReaches(p, elapsed, p.Capacity());
  }

  /** A policy that is not valid still gets the minimum lifetime, and no policy gets less. */
  lemma IdleTtlHasMinimum(p: Policy)
    ensures IdleTtlNanos(p) >= NANOS_PER_SECOND && (!p.Valid() ==> IdleTtlNanos(p) == NANOS_PER_SECOND)
  {
  }

  /**
   The two computations of the key's lifetime agree: the script's, in milliseconds, is never
   shorter than `IdleTTL` and longer by less than one millisecond.
   */
  lemma ScriptTtlCoversIdleTtl(p: Policy)
    requires p.Valid()
    ensures IdleTtlNanos(p) <= TtlMs(p) * NANOS_PER_MILLISECOND < IdleTtlNanos(p) + NANOS_PER_MILLISECOND
  {
    var fill := p.Capacity() / p.requestsPerSecond;
    CeilOfMillions(fill * 2000.0);
    assert fill * 2000.0 * 1_000_000.0 == fill * 2.0 * NANOS_PER_SECOND as real;
  }
}
