/** What a denied request leaves behind: the cases in which later requests can tell that it was made. */
module DeniedRequests {
  import opened Wrappers
  import opened Rounding
  import opened TokenBucket
  import opened BucketRun

  // ---- one denial and one later reading of the clock ----

  /** The refill a request at `t` gets from a pair stored at `u`, in milliseconds. */
  function DirectMs(u: int, t: int): nat {
    Max(0, t - u)
  }

  /** The same when a request was denied at `d` in between. */
  function DetourMs(u: int, d: int, t: int): nat {
    Max(0, d - u) + Max(0, t - d)
  }

  /** The three orders of stored reading, denial and later reading in which the detour gains nothing. */
  predicate InOrder(u: int, d: int, t: int) {
    u <= d <= t || u == d || t <= d < u
  }

  lemma DetourNeverShorter(u: int, d: int, t: int)
    ensures DetourMs(u, d, t) >= DirectMs(u, t)
    ensures DetourMs(u, d, t) == DirectMs(u, t) <==> InOrder(u, d, t)
  {
  }

  /** The tokens after `ms` milliseconds of refill. */
  function Held(p: Policy, h: Hash, ms: nat): real
    requires h.Written()
  {
    MinReal(p.Capacity(), h.tokens.value + Refill(p, ms))
  }

  predicate FullAfter(p: Policy, h: Hash, ms: nat)
    requires h.Written()
  {
    h.tokens.value + Refill(p, ms) >= p.Capacity()
  }

  lemma RefillGains(p: Policy, ms: int)
    requires p.Valid() && ms > 0
    ensures Refill(p, ms) > 0.0
  {
    assert (ms as real / 1000.0) * p.requestsPerSecond > 0.0;
  }

  lemma HeldGrows(p: Policy, h: Hash, a: nat, b: nat)
    requires p.Valid() && h.Written() && a < b
    ensures Held(p, h, a) <= Held(p, h, b)
    ensures Held(p, h, a) == Held(p, h, b) <==> FullAfter(p, h, a)
    ensures Held(p, h, b) < p.Capacity() ==> Held(p, h, b) == Held(p, h, a) + Refill(p, b - a)
  {
    RefillAdds(p, a, b - a);
    RefillGains(p, b - a);
  }

  lemma LevelsAfterDenial(p: Policy, h: Hash, d: int, t: int)
    requires p.Valid() && h.Written() && !Allows(p, h, d)
    ensures Level(p, h, t) == Held(p, h, DirectMs(h.updatedAtMs.value, t))
    ensures Level(p, Script(p, h, d).hash, t) == Held(p, h, DetourMs(h.updatedAtMs.value, d, t))
  {
    var u := h.updatedAtMs.value;
    LevelAfter(p, h, d, t);
    RefillAdds(p, Max(0, d - u), Max(0, t - d));
  }

  lemma ScriptSeesLevel(p: Policy, g: Hash, h: Hash, t: int)
    requires p.Valid()
    ensures Script(p, g, t) == Script(p, h, t) <==> Level(p, g, t) == Level(p, h, t)
  {
  }

  /**
   A later call finds, answers and stores the same as if the denied request had not been made if and
   only if the three readings are in order or the bucket was full again anyway.
   */
  lemma DenialInvisibleIffInOrder(p: Policy, h: Hash, d: int, t: int)
    requires p.Valid() && h.Written() && !Allows(p, h, d)
    ensures var u := h.updatedAtMs.value;
            Script(p, Script(p, h, d).hash, t) == Script(p, h, t)
            <==> InOrder(u, d, t) || FullAfter(p, h, DirectMs(u, t))
  {
    var u := h.updatedAtMs.value;
    LevelsAfterDenial(p, h, d, t);
    DetourNeverShorter(u, d, t);
    ScriptSeesLevel(p, Script(p, h, d).hash, h, t);
    if !InOrder(u, d, t) {
      HeldGrows(p, h, DirectMs(u, t), DetourMs(u, d, t));
    }
  }

  /** The wait for `amount` tokens, as the script computes it. */
  function WaitMs(p: Policy, amount: real): int
    requires p.Valid()
  {
    Ceil((amount / p.requestsPerSecond) * 1000.0)
  }

  /** Tokens already earned shorten the wait by exactly the time it took to earn them. */
  lemma WaitShrinks(p: Policy, amount: real, ms: nat)
    requires p.Valid()
    ensures WaitMs(p, amount - Refill(p, ms)) == WaitMs(p, amount) - ms
  {
    var short, long := WaitMs(p, amount - Refill(p, ms)), WaitMs(p, amount);
    RefillReaches(p, short, amount - Refill(p, ms));
    RefillReaches(p, long - ms, amount - Refill(p, ms));
    RefillReaches(p, short + ms, amount);
    RefillReaches(p, long, amount);
    RefillAdds(p, short, ms);
    RefillAdds(p, long - ms, ms);
  }

  /** The reply at a level. */
  function ReplyAt(p: Policy, level: real): Reply
    requires p.Valid()
  {
    if level >= 1.0 then Reply(1, (level - 1.0).Floor, 0) else Reply(0, level.Floor, WaitMs(p, 1.0 - level))
  }

  lemma ScriptRepliesAt(p: Policy, h: Hash, t: int)
    requires p.Valid()
    ensures Script(p, h, t).reply == ReplyAt(p, Level(p, h, t))
  {
  }

  lemma RepliesDiffer(p: Policy, low: real, high: real, ms: nat)
    requires p.Valid() && 0.0 <= low <= high && ms > 0 && (high < 1.0 ==> high == low + Refill(p, ms))
    ensures ReplyAt(p, high) == ReplyAt(p, low) <==> low >= 1.0 && high.Floor == low.Floor
  {
    if high < 1.0 {
      WaitShrinks(p, 1.0 - low, ms);
      assert 1.0 - high == 1.0 - low - Refill(p, ms);
    }
  }

  /**
   The later call's reply is the same if and only if the readings are in order, or the call would have
   been let through anyway with the same whole number of tokens.
   */
  lemma ReplySameIffInOrder(p: Policy, h: Hash, d: int, t: int)
    requires p.Valid() && h.Written() && !Allows(p, h, d)
    ensures var u := h.updatedAtMs.value;
            var held, detour := Held(p, h, DirectMs(u, t)), Held(p, h, DetourMs(u, d, t));
            Script(p, Script(p, h, d).hash, t).reply == Script(p, h, t).reply
            <==> InOrder(u, d, t) || (held >= 1.0 && detour.Floor == held.Floor)
  {
    var u := h.updatedAtMs.value;
    var a, b := DirectMs(u, t), DetourMs(u, d, t);
    LevelsAfterDenial(p, h, d, t);
    DetourNeverShorter(u, d, t);
    ScriptRepliesAt(p, h, t);
    ScriptRepliesAt(p, Script(p, h, d).hash, t);
    if !InOrder(u, d, t) {
      HeldGrows(p, h, a, b);
      RefillNonNegative(p, a);
      RepliesDiffer(p, Held(p, h, a), Held(p, h, b), b - a);
    }
  }

  // ---- whole runs after a denial ----

  lemma {:induction false} StoredInBurst(p: Policy, h: Hash, times: seq<int>, t: int, n: nat)
    requires p.Valid() && n <= |times| && forall i :: 0 <= i < |times| ==> times[i] == t
    ensures Stored(p, h, times, n) == StoredAfterBurst(p, h, t, n)
  {
    if n == 0 {
    } else {
      StoredInBurst(p, h, times, t, n - 1);
    }
  }

  lemma SameScriptSameReplies(p: Policy, g: Hash, h: Hash, times: seq<int>)
    requires p.Valid() && times != [] && Script(p, g, times[0]) == Script(p, h, times[0])
    ensures Replies(p, g, times) == Replies(p, h, times)
  {
  }

  /** The retry a burst at `t` ends with, once it has used up the whole tokens. */
  lemma BurstEndsInDenial(p: Policy, h: Hash, times: seq<int>, t: int, n: nat)
    requires p.Valid() && h.Reachable() && |times| == n + 1 && forall i :: 0 <= i < |times| ==> times[i] == t
    requires n as real <= Level(p, h, t) < n as real + 1.0
    ensures Replies(p, h, times)[n].retryAfterMs == WaitMs(p, 1.0 - (Level(p, h, t) - n as real))
  {
    RepliesAreTheRun(p, h, times, n);
    StoredInBurst(p, h, times, t, n);
    BurstLevel(p, h, t, n);
  }

  /** Two levels with the same whole part are told apart by spending it. */
  lemma BurstTellsApart(p: Policy, g: Hash, h: Hash, t: int, ms: nat) returns (rest: seq<int>)
    requires p.Valid() && g.Reachable() && h.Reachable() && ms > 0
    requires Level(p, g, t) == Level(p, h, t) + Refill(p, ms) && Level(p, g, t).Floor == Level(p, h, t).Floor
    ensures Replies(p, g, [t] + rest) != Replies(p, h, [t] + rest)
  {
    LevelBounds(p, h, t);
    var n: nat := Level(p, h, t).Floor;
    rest := seq(n, _ => t);
    BurstEndsInDenial(p, g, [t] + rest, t, n);
    BurstEndsInDenial(p, h, [t] + rest, t, n);
    WaitShrinks(p, 1.0 - (Level(p, h, t) - n as real), ms);
    assert 1.0 - (Level(p, g, t) - n as real) == 1.0 - (Level(p, h, t) - n as real) - Refill(p, ms);
  }

  /** Some run starting with a reading out of order sees the denial. */
  lemma DenialShows(p: Policy, h: Hash, d: int, t: int) returns (rest: seq<int>)
    requires p.Valid() && h.Written() && !Allows(p, h, d)
    requires !InOrder(h.updatedAtMs.value, d, t) && !FullAfter(p, h, DirectMs(h.updatedAtMs.value, t))
    ensures Replies(p, Script(p, h, d).hash, [t] + rest) != Replies(p, h, [t] + rest)
  {
    var u, denied := h.updatedAtMs.value, Script(p, h, d).hash;
    var a, b := DirectMs(u, t), DetourMs(u, d, t);
    ReplySameIffInOrder(p, h, d, t);
    if Script(p, denied, t).reply != Script(p, h, t).reply {
      rest := [];
      assert Replies(p, denied, [t] + rest)[0] == Script(p, denied, t).reply;
      assert Replies(p, h, [t] + rest)[0] == Script(p, h, t).reply;
    } else {
      LevelsAfterDenial(p, h, d, t);
      DetourNeverShorter(u, d, t);
      HeldGrows(p, h, a, b);
      LevelBounds(p, h, d);
      rest := BurstTellsApart(p, denied, h, t, b - a);
    }
  }

  /**
   No run of later requests whose first reading is `t` can tell that the denied request was made if
   and only if the three readings are in order or the bucket is full at `t` without it.
   */
  lemma DenialInvisibleToRunsIffInOrder(p: Policy, h: Hash, d: int, t: int)
    requires p.Valid() && h.Written() && !Allows(p, h, d)
    ensures var u := h.updatedAtMs.value;
            (forall rest: seq<int> :: Replies(p, Script(p, h, d).hash, [t] + rest) == Replies(p, h, [t] + rest))
            <==> InOrder(u, d, t) || FullAfter(p, h, DirectMs(u, t))
  {
    var u := h.updatedAtMs.value;
    if InOrder(u, d, t) || FullAfter(p, h, DirectMs(u, t)) {
      DenialInvisibleIffInOrder(p, h, d, t);
      forall rest: seq<int>
        ensures Replies(p, Script(p, h, d).hash, [t] + rest) == Replies(p, h, [t] + rest)
      {
        SameScriptSameReplies(p, Script(p, h, d).hash, h, [t] + rest);
      }
    } else {
      var rest := DenialShows(p, h, d, t);
    }
  }

  // ---- inputs on which a denial shows ----

  const ONE_PER_SECOND := Policy(1.0, 1)

  lemma OnePerSecondLevel(x: real, u: int, t: int)
    ensures Level(ONE_PER_SECOND, Hash(Some(x), Some(u)), t) == MinReal(1.0, x + Max(0, t - u) as real / 1000.0)
  {
  }

  /** A call that finds `y` tokens, less than one, stores them and waits for the rest. */
  lemma OnePerSecondDenies(x: real, u: int, t: int, y: real)
    requires 0.0 <= y < 1.0 && y == x + Max(0, t - u) as real / 1000.0
    ensures Script(ONE_PER_SECOND, Hash(Some(x), Some(u)), t).hash == Hash(Some(y), Some(t))
    ensures Script(ONE_PER_SECOND, Hash(Some(x), Some(u)), t).reply == Reply(0, 0, Ceil((1.0 - y) * 1000.0))
  {
    OnePerSecondLevel(x, u, t);
    assert (1.0 - y) / ONE_PER_SECOND.requestsPerSecond == 1.0 - y;
  }

  /** A denial behind the stored reading shortens the next wait from 1000 to 995 milliseconds. */
  lemma DenialBehindStoredReadingShows()
    ensures var p, h := ONE_PER_SECOND, Hash(Some(0.0), Some(10));
            && !Allows(p, h, 5)
            && Script(p, h, 10).reply.retryAfterMs == 1000
            && Script(p, Script(p, h, 5).hash, 10).reply.retryAfterMs == 995
  {
    OnePerSecondDenies(0.0, 10, 5, 0.0);
    OnePerSecondDenies(0.0, 10, 10, 0.0);
    OnePerSecondDenies(0.0, 5, 10, 0.005);
  }

  /** A denial at 900, not behind the stored 0, lets the second of two later readings 400 and 500 through. */
  lemma DenialAheadOfLaterReadingsShows()
    ensures var p, h := ONE_PER_SECOND, Hash(Some(0.0), Some(0));
            && !Allows(p, h, 900)
            && Replies(p, h, [400, 500])[1].allowed == 0
            && Replies(p, Script(p, h, 900).hash, [400, 500])[1].allowed == 1
  {
    var p, h, times := ONE_PER_SECOND, Hash(Some(0.0), Some(0)), [400, 500];
    OnePerSecondDenies(0.0, 0, 900, 0.9);
    OnePerSecondDenies(0.0, 0, 400, 0.4);
    OnePerSecondDenies(0.4, 400, 500, 0.5);
    OnePerSecondDenies(0.9, 900, 400, 0.9);
    OnePerSecondLevel(0.9, 400, 500);
    RepliesOfTwo(p, h, 400, 500);
    RepliesOfTwo(p, Script(p, h, 900).hash, 400, 500);
  }

  lemma RepliesOfTwo(p: Policy, h: Hash, t: int, next: int)
    requires p.Valid()
    ensures Replies(p, h, [t, next])[1] == Script(p, Script(p, h, t).hash, next).reply
  {
    RepliesAreTheRun(p, h, [t, next], 1);
    assert Stored(p, h, [t, next], 1) == Script(p, Stored(p, h, [t, next], 0), t).hash;
  }

  // ---- removing denied requests from a run ----

  /** The reading stored when request k arrives. */
  function ReadingBefore(h: Hash, times: seq<int>, k: nat): int
    requires k < |times|
  {
    if k > 0 then times[k - 1]
    else if h.updatedAtMs.Some? then h.updatedAtMs.value
    else times[0]
  }

  lemma FirstDenialLeavesNoTrace(p: Policy, h: Hash, times: seq<int>)
    requires p.Valid() && h.Reachable() && times != [] && !Allows(p, h, times[0])
    requires |times| > 1 ==> InOrder(ReadingBefore(h, times, 0), times[0], times[1])
    ensures Replies(p, h, times[1..]) == Replies(p, Script(p, h, times[0]).hash, times[1..])
  {
    if |times| > 1 {
      DenialInvisibleIffInOrder(p, h, times[0], times[1]);
      SameScriptSameReplies(p, Script(p, h, times[0]).hash, h, times[1..]);
    }
  }

  /** `s` without its element at `k`. */
  function Without<T>(s: seq<T>, k: nat): (r: seq<T>)
    requires k < |s|
    ensures |r| == |s| - 1 && forall i :: 0 <= i < |r| ==> r[i] == s[if i < k then i else i + 1]
    decreases k
  {
    if k == 0 then s[1..] else [s[0]] + Without(s[1..], k - 1)
  }

  /**
   For any clock, removing a denied request, or read the other way inserting one, changes no other
   request's decision, remaining count or wait, provided its reading is in order with its neighbours'.
   */
  lemma {:induction false} DeniedRequestLeavesNoTrace(p: Policy, h: Hash, times: seq<int>, k: nat)
    requires p.Valid() && h.Reachable() && k < |times|
    requires k + 1 < |times| ==> InOrder(ReadingBefore(h, times, k), times[k], times[k + 1])
    requires Replies(p, h, times)[k].allowed == 0
    ensures Replies(p, h, Without(times, k)) == Without(Replies(p, h, times), k)
    decreases k
  {
    var rest, first := times[1..], Script(p, h, times[0]);
    if k == 0 {
      FirstDenialLeavesNoTrace(p, h, times);
    } else {
      LevelBounds(p, h, times[0]);
      DeniedRequestLeavesNoTrace(p, first.hash, rest, k - 1);
      assert ([times[0]] + Without(rest, k - 1))[1..] == Without(rest, k - 1);
      assert Replies(p, h, times)[1..] == Replies(p, first.hash, rest);
    }
  }

  ghost predicate ClockStartsAfter(h: Hash, times: seq<int>) {
    Monotone(times) && (times != [] && h.updatedAtMs.Some? ==> h.updatedAtMs.value <= times[0])
  }

  function AllowedTimes(times: seq<int>, replies: seq<Reply>): seq<int>
    requires |times| == |replies|
  {
    if times == [] then []
    else (if replies[0].allowed == 0 then [] else [times[0]]) + AllowedTimes(times[1..], replies[1..])
  }

  function AllowedReplies(replies: seq<Reply>): seq<Reply> {
    if replies == [] then []
    else (if replies[0].allowed == 0 then [] else [replies[0]]) + AllowedReplies(replies[1..])
  }

  /** Dropping every denied request at once leaves the allowed ones with the replies they had. */
  lemma {:induction false} OnlyAllowedRequestsMatter(p: Policy, h: Hash, times: seq<int>)
    requires p.Valid() && h.Reachable() && ClockStartsAfter(h, times)
    ensures Replies(p, h, AllowedTimes(times, Replies(p, h, times))) == AllowedReplies(Replies(p, h, times))
    decreases |times|
  {
    if times == [] {
    } else {
      var replies := Replies(p, h, times);
      var result := Script(p, h, times[0]);
      LevelBounds(p, h, times[0]);
      assert replies[1..] == Replies(p, result.hash, times[1..]);
      if replies[0].allowed == 0 {
        FirstDenialLeavesNoTrace(p, h, times);
        OnlyAllowedRequestsMatter(p, h, times[1..]);
        assert AllowedTimes(times, replies) == AllowedTimes(times[1..], replies[1..]);
      } else {
        var kept := AllowedTimes(times[1..], replies[1..]);
        OnlyAllowedRequestsMatter(p, result.hash, times[1..]);
        assert AllowedTimes(times, replies) == [times[0]] + kept;
        assert ([times[0]] + kept)[1..] == kept;
      }
    }
  }
}
