/**
 Whole runs of the token bucket on one key under one policy: `times[n]` is the clock reading of
 request n. The clock may step back; `ForwardTime` then counts only its forward steps.
 */
module BucketRun {
  import opened Rounding
  import opened TokenBucket

  /** What is stored when request n arrives. */
  function Stored(p: Policy, h: Hash, times: seq<int>, n: nat): Hash
    requires p.Valid() && n <= |times|
  {
    if n == 0 then h else Script(p, Stored(p, h, times, n - 1), times[n - 1]).hash
  }

  function LevelAt(p: Policy, h: Hash, times: seq<int>, n: nat): real
    requires p.Valid() && n < |times|
  {
    Level(p, Stored(p, h, times, n), times[n])
  }

  predicate AllowedAt(p: Policy, h: Hash, times: seq<int>, n: nat)
    requires p.Valid() && n < |times|
  {
    Allows(p, Stored(p, h, times, n), times[n])
  }

  /** How many of the requests i, ..., n-1 were allowed. */
  function AllowedIn(p: Policy, h: Hash, times: seq<int>, i: nat, n: nat): nat
    requires p.Valid() && i <= n <= |times|
  {
    if i == n then 0
    else AllowedIn(p, h, times, i, n - 1) + (if AllowedAt(p, h, times, n - 1) then 1 else 0)
  }

  /** The forward clock steps between consecutive requests from i to n, added up. */
  function ForwardTime(times: seq<int>, i: nat, n: nat): nat
    requires i <= n < |times|
  {
    if i == n then 0 else ForwardTime(times, i, n - 1) + Max(0, times[n] - times[n - 1])
  }

  /** The most requests a window of `ms` milliseconds may let through. */
  function Budget(p: Policy, ms: int): real {
    p.Capacity() + Refill(p, ms)
  }

  ghost predicate Monotone(times: seq<int>) {
    forall i, j :: 0 <= i <= j < |times| ==> times[i] <= times[j]
  }

  lemma ForwardTimeOfMonotone(times: seq<int>, i: nat, n: nat)
    requires i <= n < |times| && Monotone(times)
    ensures ForwardTime(times, i, n) == times[n] - times[i]
  {
  }

  lemma {:induction false} StoredReachable(p: Policy, h: Hash, times: seq<int>, n: nat)
    requires p.Valid() && h.Reachable() && n <= |times|
    ensures Stored(p, h, times, n).Reachable()
  {
    if n == 0 {
    } else {
      StoredReachable(p, h, times, n - 1);
      LevelBounds(p, Stored(p, h, times, n - 1), times[n - 1]);
    }
  }

  /** Whatever is stored at the start, no window ever leaves the bucket more than it has unspent. */
  lemma {:induction false} LevelWithinEveryWindow(p: Policy, h: Hash, times: seq<int>, i: nat, n: nat)
    requires p.Valid() && i <= n < |times|
    ensures LevelAt(p, h, times, n) <= Budget(p, ForwardTime(times, i, n)) - AllowedIn(p, h, times, i, n) as real
    decreases n
  {
    if i == n {
    } else {
      LevelWithinEveryWindow(p, h, times, i, n - 1);
      LevelAfter(p, Stored(p, h, times, n - 1), times[n - 1], times[n]);
      RefillAdds(p, ForwardTime(times, i, n - 1), Max(0, times[n] - times[n - 1]));
    }
  }

  /** Starting from an empty key space, some window leaves the bucket exactly that much. */
  lemma {:induction false} LevelMeetsSomeWindow(p: Policy, times: seq<int>, n: nat) returns (i: nat)
    requires p.Valid() && n < |times|
    ensures i <= n
    ensures LevelAt(p, MISSING, times, n) == Budget(p, ForwardTime(times, i, n)) - AllowedIn(p, MISSING, times, i, n) as real
    decreases n
  {
    i := n;
    if n > 0 && LevelAt(p, MISSING, times, n) < p.Capacity() {
      i := LevelMeetsSomeWindow(p, times, n - 1);
      LevelAfter(p, Stored(p, MISSING, times, n - 1), times[n - 1], times[n]);
      RefillAdds(p, ForwardTime(times, i, n - 1), Max(0, times[n] - times[n - 1]));
    }
  }

  /**
   The one stored pair decides exactly as the all-windows specification does: a request is denied
   if and only if letting it through would overspend the budget of some window ending at it.
   */
  lemma DeniedIffSomeWindowIsSpent(p: Policy, times: seq<int>, n: nat)
    requires p.Valid() && n < |times|
    ensures !AllowedAt(p, MISSING, times, n) <==>
            exists i: nat {:trigger AllowedIn(p, MISSING, times, i, n)} ::
              i < n && 1.0 + AllowedIn(p, MISSING, times, i, n) as real > Budget(p, ForwardTime(times, i, n))
  {
    var i := LevelMeetsSomeWindow(p, times, n);
    forall j: nat | j < n
      ensures LevelAt(p, MISSING, times, n) <= Budget(p, ForwardTime(times, j, n)) - AllowedIn(p, MISSING, times, j, n) as real
    {
      LevelWithinEveryWindow(p, MISSING, times, j, n);
    }
  }

  /** The same with a clock that never steps back, in terms of elapsed time. */
  lemma DeniedIffSomeElapsedWindowIsSpent(p: Policy, times: seq<int>, n: nat)
    requires p.Valid() && n < |times| && Monotone(times)
    ensures !AllowedAt(p, MISSING, times, n) <==>
            exists i: nat {:trigger AllowedIn(p, MISSING, times, i, n)} ::
              i < n && 1.0 + AllowedIn(p, MISSING, times, i, n) as real > Budget(p, times[n] - times[i])
  {
    DeniedIffSomeWindowIsSpent(p, times, n);
    forall i: nat | i < n
      ensures Budget(p, ForwardTime(times, i, n)) == Budget(p, times[n] - times[i])
    {
      BudgetOfMonotone(p, times, i, n);
    }
  }

  /** A window ending at request n, before it is decided, has room for one more on top of `allowed`. */
  predicate HasRoom(p: Policy, times: seq<int>, i: nat, n: nat, allowed: nat)
    requires i <= n < |times|
  {
    1.0 + allowed as real <= Budget(p, ForwardTime(times, i, n))
  }

  /** The reference limiter keeps no bucket: it lets a request through when every window has room for it. */
  ghost predicate WindowsAllow(p: Policy, times: seq<int>, n: nat)
    requires n < |times|
    decreases n, 1
  {
    forall i: nat {:trigger WindowsAllowedIn(p, times, i, n)} ::
      i < n ==> HasRoom(p, times, i, n, WindowsAllowedIn(p, times, i, n))
  }

  ghost function WindowsAllowedIn(p: Policy, times: seq<int>, i: nat, n: nat): nat
    requires i <= n <= |times|
    decreases n, 0
  {
    if i == n then 0
    else WindowsAllowedIn(p, times, i, n - 1) + (if WindowsAllow(p, times, n - 1) then 1 else 0)
  }

  lemma {:induction false} BucketCountsAsWindowsDo(p: Policy, times: seq<int>, i: nat, n: nat)
    requires p.Valid() && i <= n <= |times|
    ensures AllowedIn(p, MISSING, times, i, n) == WindowsAllowedIn(p, times, i, n)
    decreases n, 0
  {
    if i == n {
    } else {
      BucketCountsAsWindowsDo(p, times, i, n - 1);
      BucketRefinesWindows(p, times, n - 1);
    }
  }

  lemma AllowedHasRoom(p: Policy, times: seq<int>, i: nat, n: nat)
    requires p.Valid() && i <= n < |times| && AllowedAt(p, MISSING, times, n)
    ensures HasRoom(p, times, i, n, AllowedIn(p, MISSING, times, i, n))
  {
    LevelWithinEveryWindow(p, MISSING, times, i, n);
  }

  lemma DeniedLacksRoom(p: Policy, times: seq<int>, n: nat) returns (i: nat)
    requires p.Valid() && n < |times| && !AllowedAt(p, MISSING, times, n)
    ensures i < n && !HasRoom(p, times, i, n, AllowedIn(p, MISSING, times, i, n))
  {
    i := LevelMeetsSomeWindow(p, times, n);
  }

  /** The stored pair refines the reference limiter, which remembers every request. */
  lemma {:induction false} BucketRefinesWindows(p: Policy, times: seq<int>, n: nat)
    requires p.Valid() && n < |times|
    ensures AllowedAt(p, MISSING, times, n) <==> WindowsAllow(p, times, n)
    decreases n, 1
  {
    if AllowedAt(p, MISSING, times, n) {
      forall i: nat | i < n
        ensures HasRoom(p, times, i, n, WindowsAllowedIn(p, times, i, n))
      {
        AllowedHasRoom(p, times, i, n);
        BucketCountsAsWindowsDo(p, times, i, n);
      }
    } else {
      var i := DeniedLacksRoom(p, times, n);
      BucketCountsAsWindowsDo(p, times, i, n);
    }
  }

  lemma BudgetOfMonotone(p: Policy, times: seq<int>, i: nat, n: nat)
    requires i <= n < |times| && Monotone(times)
    ensures Budget(p, ForwardTime(times, i, n)) == Budget(p, times[n] - times[i])
  {
    ForwardTimeOfMonotone(times, i, n);
  }

  /** For any clock and any stored start, requests i, ..., j never overspend the window's budget. */
  lemma WindowBound(p: Policy, h: Hash, times: seq<int>, i: nat, j: nat)
    requires p.Valid() && h.Reachable() && i <= j < |times|
    ensures AllowedIn(p, h, times, i, j + 1) as real <= Budget(p, ForwardTime(times, i, j))
  {
    LevelWithinEveryWindow(p, h, times, i, j);
    StoredReachable(p, h, times, j);
    LevelBounds(p, Stored(p, h, times, j), times[j]);
  }

  lemma ElapsedWindowBound(p: Policy, h: Hash, times: seq<int>, i: nat, j: nat)
    requires p.Valid() && h.Reachable() && i <= j < |times| && Monotone(times)
    ensures AllowedIn(p, h, times, i, j + 1) as real <= Budget(p, times[j] - times[i])
  {
    WindowBound(p, h, times, i, j);
    BudgetOfMonotone(p, times, i, j);
  }

  // ---- the wait a denial reports ----

  /** After a denial the next call succeeds from exactly the reported number of milliseconds on. */
  lemma RetryHintIsExact(p: Policy, h: Hash, nowMs: int, nextMs: int)
    requires p.Valid() && h.Reachable() && !Allows(p, h, nowMs)
    ensures Allows(p, Script(p, h, nowMs).hash, nextMs)
            <==> nextMs >= nowMs + Script(p, h, nowMs).reply.retryAfterMs
    ensures Script(p, h, nowMs).reply.retryAfterMs >= 1
  {
    var shortfall := 1.0 - Level(p, h, nowMs);
    LevelAfter(p, h, nowMs, nextMs);
    RefillReaches(p, Max(0, nextMs - nowMs), shortfall);
    RefillReaches(p, 0, shortfall);
  }

  // ---- the remaining count a reply reports ----

  /** What is stored after k more calls at the same instant. */
  function StoredAfterBurst(p: Policy, h: Hash, nowMs: int, k: nat): Hash
    requires p.Valid()
  {
    if k == 0 then h else Script(p, StoredAfterBurst(p, h, nowMs, k - 1), nowMs).hash
  }

  lemma LevelAtSameInstant(p: Policy, h: Hash, nowMs: int)
    requires p.Valid() && h.Reachable()
    ensures Level(p, Script(p, h, nowMs).hash, nowMs) == Level(p, h, nowMs) - (if Allows(p, h, nowMs) then 1.0 else 0.0)
  {
    LevelBounds(p, h, nowMs);
    LevelAfter(p, h, nowMs, nowMs);
    RefillReaches(p, 0, 0.0);
  }

  lemma {:induction false} BurstLevel(p: Policy, h: Hash, nowMs: int, k: nat)
    requires p.Valid() && h.Reachable() && k as real <= Level(p, h, nowMs)
    ensures StoredAfterBurst(p, h, nowMs, k).Reachable()
    ensures Level(p, StoredAfterBurst(p, h, nowMs, k), nowMs) == Level(p, h, nowMs) - k as real
  {
    if k == 0 {
    } else {
      BurstLevel(p, h, nowMs, k - 1);
      var before := StoredAfterBurst(p, h, nowMs, k - 1);
      LevelBounds(p, before, nowMs);
      LevelAtSameInstant(p, before, nowMs);
    }
  }

  /** A reply's remaining count is how many more calls at that instant are allowed: that many, and no more. */
  lemma RemainingIsExact(p: Policy, h: Hash, nowMs: int, k: nat)
    requires p.Valid() && h.Reachable() && k <= Script(p, h, nowMs).reply.remaining
    ensures Allows(p, StoredAfterBurst(p, Script(p, h, nowMs).hash, nowMs, k), nowMs)
            <==> k < Script(p, h, nowMs).reply.remaining
  {
    LevelBounds(p, h, nowMs);
    LevelAtSameInstant(p, h, nowMs);
    BurstLevel(p, Script(p, h, nowMs).hash, nowMs, k);
  }

  // ---- expiry ----

  /** The same run when the server drops the key once its lifetime has passed. */
  function StoredWithExpiry(p: Policy, times: seq<int>, n: nat): Hash
    requires p.Valid() && n <= |times|
    decreases n, 0
  {
    if n == 0 then MISSING
    else Script(p, SeenWithExpiry(p, times, n - 1), times[n - 1]).hash
  }

  function SeenWithExpiry(p: Policy, times: seq<int>, n: nat): Hash
    requires p.Valid() && n < |times|
    decreases n, 1
  {
    var h := StoredWithExpiry(p, times, n);
    if h.updatedAtMs.Some? && times[n] > h.updatedAtMs.value + TtlMs(p) then MISSING else h
  }

  /** With one clock, dropping the key after its lifetime changes no reply. */
  lemma {:induction false} ExpiryLeavesNoTrace(p: Policy, times: seq<int>, n: nat)
    requires p.Valid() && n < |times|
    ensures StoredWithExpiry(p, times, n) == Stored(p, MISSING, times, n)
    ensures Script(p, SeenWithExpiry(p, times, n), times[n]) == Script(p, Stored(p, MISSING, times, n), times[n])
  {
    if n == 0 {
    } else {
      ExpiryLeavesNoTrace(p, times, n - 1);
      LevelBounds(p, SeenWithExpiry(p, times, n - 1), times[n - 1]) by {
        StoredReachable(p, MISSING, times, n - 1);
      }
    }
    var h := StoredWithExpiry(p, times, n);
    if h.updatedAtMs.Some? && times[n] > h.updatedAtMs.value + TtlMs(p) {
      ExpiredBucketIsFull(p, h, times[n]);
    }
  }

  // ---- replies ----

  function Replies(p: Policy, h: Hash, times: seq<int>): (replies: seq<Reply>)
    requires p.Valid()
    ensures |replies| == |times|
    decreases |times|
  {
    if times == [] then []
    else
      var result := Script(p, h, times[0]);
      [result.reply] + Replies(p, result.hash, times[1..])
  }

  lemma {:induction false} RepliesAreTheRun(p: Policy, h: Hash, times: seq<int>, n: nat)
    requires p.Valid() && n < |times|
    ensures Replies(p, h, times)[n] == Script(p, Stored(p, h, times, n), times[n]).reply
    decreases n
  {
    if n == 0 {
    } else {
      var next := Script(p, h, times[0]).hash;
      RepliesAreTheRun(p, next, times[1..], n - 1);
      StoredAfterFirst(p, h, times, n);
    }
  }

  lemma {:induction false} StoredAfterFirst(p: Policy, h: Hash, times: seq<int>, n: nat)
    requires p.Valid() && 0 < n <= |times|
    ensures Stored(p, h, times, n) == Stored(p, Script(p, h, times[0]).hash, times[1..], n - 1)
  {
    if n == 1 {
    } else {
      StoredAfterFirst(p, h, times, n - 1);
    }
  }
}
