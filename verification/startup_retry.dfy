/** Database startup: the retry loop, its backoff in 64-bit arithmetic, and who owns the pool. */
module StartupRetry {
  import opened Wrappers

  newtype int32 = x: int | -0x8000_0000 <= x < 0x8000_0000
  newtype int64 = x: int | -0x8000_0000_0000_0000 <= x < 0x8000_0000_0000_0000

  // ---- backoff ----

  function Pow2(n: nat): nat {
    if n == 0 then 1 else 2 * Pow2(n - 1)
  }

  /** Over the integers: the initial delay doubled once per earlier attempt, capped. */
  function Backoff(initial: int, maxDelay: int, attempt: int): int {
    if initial <= 0 || attempt < 1 then 0
    else
      var cap := if maxDelay < initial then initial else maxDelay;
      var doubled := initial * Pow2(attempt - 1);
      if doubled < cap then doubled else cap
  }

  lemma {:induction false} Pow2Grows(m: nat, n: nat)
    requires m <= n
    ensures 1 <= Pow2(m) <= Pow2(n)
    decreases n
  {
    if m < n {
      Pow2Grows(m, n - 1);
    } else if m > 0 {
      Pow2Grows(m - 1, n - 1);
    }
  }

  lemma ScaleKeepsOrder(k: int, a: int, b: int)
    requires k > 0 && 1 <= a <= b
    ensures 0 < k * a <= k * b
  {
    assert k * (b - a) >= 0 && k * (a - 1) >= 0;
  }

  lemma DoublingGrows(initial: int, m: nat, n: nat)
    requires initial > 0 && m <= n
    ensures 0 < initial * Pow2(m) <= initial * Pow2(n)
  {
    Pow2Grows(m, n);
    ScaleKeepsOrder(initial, Pow2(m), Pow2(n));
  }

  /** The closed form doubles from the initial delay up to the cap and then stays there. */
  lemma BackoffDoublesToCap(initial: int, maxDelay: int, attempt: int)
    requires initial > 0 && attempt >= 1
    ensures Backoff(initial, maxDelay, 1) == initial
    ensures var cap, delay := if maxDelay < initial then initial else maxDelay, Backoff(initial, maxDelay, attempt);
            Backoff(initial, maxDelay, attempt + 1) == if 2 * delay < cap then 2 * delay else cap
  {
    DoublingGrows(initial, attempt - 1, attempt);
    assert initial * Pow2(attempt) == 2 * (initial * Pow2(attempt - 1));
  }

  lemma BackoffIsMonotone(initial: int, maxDelay: int, attempt: int, later: int)
    requires attempt <= later
    ensures 0 <= Backoff(initial, maxDelay, attempt) <= Backoff(initial, maxDelay, later)
  {
    if initial > 0 && attempt >= 1 {
      DoublingGrows(initial, attempt - 1, later - 1);
    } else if initial > 0 && later >= 1 {
      DoublingGrows(initial, 0, later - 1);
    }
  }

  /** Every value the loop computes fits in 64 bits, and the result is the capped power. */
  method StartupRetryDelay(initial: int64, maxDelay: int64, attempt: int32) returns (delay: int64)
    ensures delay as int == Backoff(initial as int, maxDelay as int, attempt as int)
  {
    if initial <= 0 || attempt < 1 {
      return 0;
    }
    var cap := if maxDelay < initial then initial else maxDelay;
    delay := initial;
    var i: int32 := 1;
    while i < attempt
      invariant 1 <= i <= attempt
      invariant 0 < delay <= cap && delay as int == initial as int * Pow2(i as int - 1)
      decreases attempt as int - i as int
    {
      DoublingGrows(initial as int, i as int, attempt as int - 1);
      assert initial as int * Pow2(i as int) == 2 * (initial as int * Pow2(i as int - 1));
      if delay >= cap || delay > cap / 2 {
        return cap;
      }
      delay := delay * 2;
      i := i + 1;
    }
    return if delay < cap then delay else cap;
  }

  // ---- errors ----

  datatype Context = Active | Canceled | DeadlineExceeded

  /** What errors.Is and errors.As find in an error's chain. */
  datatype DbError = DbError(
    isCanceled: bool,
    isDeadline: bool,
    isUrlProblem: bool,
    sqlState: Option<string>)

  predicate IsRetryableSqlState(code: string) {
    if |code| < 2 then false
    else
      var prefix := code[..2];
      || prefix == "08" || prefix == "40" || prefix == "53" || prefix == "58"
      || code == "55P03" || code == "57P01" || code == "57P02" || code == "57P03"
  }

  predicate IsRetryableError(ctx: Context, err: DbError) {
    if err.isCanceled then false
    else if err.isDeadline then ctx == Active
    else if ctx == Canceled then false
    else if err.isUrlProblem then false
    else if err.sqlState.Some? then IsRetryableSqlState(err.sqlState.value)
    else true
  }

  // ---- one attempt ----

  /** How far opening a pool gets; only a ping failure leaves a pool to close. */
  datatype OpenOutcome = ParseFailed(err: DbError) | CreateFailed(err: DbError) | PingFailed(err: DbError) | Opened

  datatype AttemptOutcome = AttemptOutcome(open: OpenOutcome, migrationError: Option<DbError>, contextAfter: Context)

  /** The error an attempt ends with, if any. */
  function AttemptError(migrate: bool, o: AttemptOutcome): Option<DbError> {
    if !o.open.Opened? then Some(o.open.err)
    else if migrate then o.migrationError
    else None
  }

  /** The pools of the process, by number. */
  class Pools {
    var created: nat
    var open: set<nat>

    ghost predicate Valid()
      reads this
    {
      forall p :: p in open ==> p < created
    }

    method Create() returns (pool: nat)
      requires Valid()
      modifies this
      ensures Valid() && pool == old(created) && created == old(created) + 1 && open == old(open) + {pool}
      ensures pool !in old(open)
    {
      pool := created;
      created, open := created + 1, open + {pool};
    }

    method Close(pool: nat)
      requires Valid()
      modifies this
      ensures Valid() && open == old(open) - {pool} && created == old(created)
    {
      open := open - {pool};
    }
  }

  function PoolsCreated(outcome: OpenOutcome): nat {
    if outcome.PingFailed? || outcome.Opened? then 1 else 0
  }

  method Open(pools: Pools, outcome: OpenOutcome) returns (r: Result<nat, DbError>)
    requires pools.Valid()
    modifies pools
    ensures pools.Valid()
    ensures outcome.Opened? ==> r.Ok? && r.value !in old(pools.open) && pools.open == old(pools.open) + {r.value}
    ensures !outcome.Opened? ==> r == Err(outcome.err) && pools.open == old(pools.open)
    ensures pools.created == old(pools.created) + PoolsCreated(outcome)
  {
    if outcome.ParseFailed? || outcome.CreateFailed? {
      return Err(outcome.err);
    }
    var pool := pools.Create();
    if outcome.PingFailed? {
      pools.Close(pool);
      assert pools.open == old(pools.open);
      return Err(outcome.err);
    }
    return Ok(pool);
  }

  /** Either a new open pool, or an error with its retry verdict and no pool left behind. */
  method StartupAttempt(pools: Pools, migrate: bool, o: AttemptOutcome)
    returns (r: Result<nat, DbError>, retryable: bool)
    requires pools.Valid()
    modifies pools
    ensures pools.Valid() && pools.created == old(pools.created) + PoolsCreated(o.open)
    ensures r.Ok? <==> o.open.Opened? && (migrate ==> o.migrationError.None?)
    ensures o.open.PingFailed? ==> r == Err(o.open.err)
    ensures o.open.Opened? && migrate && o.migrationError.Some? ==> r == Err(o.migrationError.value)
    ensures match AttemptError(migrate, o)
            case None => r.Ok? && r.value !in old(pools.open) && pools.open == old(pools.open) + {r.value}
            case Some(err) =>
              r == Err(err) && pools.open == old(pools.open) && retryable == IsRetryableError(o.contextAfter, err)
  {
    r := Open(pools, o.open);
    if r.Err? {
      return r, IsRetryableError(o.contextAfter, r.error);
    }
    if migrate && o.migrationError.Some? {
      pools.Close(r.value);
      assert pools.open == old(pools.open);
      return Err(o.migrationError.value), IsRetryableError(o.contextAfter, o.migrationError.value);
    }
    return r, false;
  }

  // ---- the loop ----

  datatype Config = Config(
    hasUrl: bool,
    maxAttempts: int32,
    backoffInitial: int64,
    backoffMax: int64,
    migrateOnStartup: bool)

  /** What happens around attempt n = 1, 2, ... */
  datatype Environment = Environment(
    contextBefore: nat -> Context,
    attempt: nat -> AttemptOutcome,
    sleepInterrupted: nat -> bool,
    hasRegisterer: bool,
    metricsRegister: bool)

  datatype SetupError =
    | InvalidInputs
    | StartupCanceled
    | NotRetryable(err: DbError)
    | Exhausted(err: DbError)
    | MetricsFailed
    | FellThrough

  function MaxAttempts(cfg: Config): int {
    if cfg.maxAttempts < 1 then 1 else cfg.maxAttempts as int
  }

  function DelayAfter(cfg: Config, n: nat): int {
    Backoff(cfg.backoffInitial as int, cfg.backoffMax as int, n)
  }

  predicate Succeeds(cfg: Config, env: Environment, n: nat) {
    env.contextBefore(n) == Active && AttemptError(cfg.migrateOnStartup, env.attempt(n)).None?
  }

  predicate FailsWith(cfg: Config, env: Environment, n: nat, err: DbError) {
    env.contextBefore(n) == Active && AttemptError(cfg.migrateOnStartup, env.attempt(n)) == Some(err)
  }

  predicate Retryable(cfg: Config, env: Environment, n: nat) {
    && env.contextBefore(n) == Active
    && var err := AttemptError(cfg.migrateOnStartup, env.attempt(n));
       err.Some? && IsRetryableError(env.attempt(n).contextAfter, err.value)
  }

  /** The pools created by the first n attempts. */
  function CreatedBy(env: Environment, n: nat): nat {
    if n == 0 then 0
    else CreatedBy(env, n - 1) + (if env.contextBefore(n) == Active then PoolsCreated(env.attempt(n).open) else 0)
  }

  /** Attempt n fails, may be retried, and nothing interrupts the sleep after it. */
  predicate GoesOn(cfg: Config, env: Environment, n: nat) {
    Retryable(cfg, env, n) && n < MaxAttempts(cfg) && !(DelayAfter(cfg, n) > 0 && env.sleepInterrupted(n))
  }

  /** Why the loop ends at attempt n with this result. */
  predicate EndsWith(cfg: Config, env: Environment, n: nat, r: Result<nat, SetupError>) {
    match r
    case Ok(_) => Succeeds(cfg, env, n) && env.metricsRegister
    case Err(MetricsFailed) => Succeeds(cfg, env, n) && !env.metricsRegister
    case Err(NotRetryable(err)) => FailsWith(cfg, env, n, err) && !Retryable(cfg, env, n)
    case Err(Exhausted(err)) => FailsWith(cfg, env, n, err) && Retryable(cfg, env, n) && n == MaxAttempts(cfg)
    case Err(StartupCanceled) =>
      || env.contextBefore(n) != Active
      || (Retryable(cfg, env, n) && n < MaxAttempts(cfg) && DelayAfter(cfg, n) > 0 && env.sleepInterrupted(n))
    case _ => false
  }

  /** Every earlier attempt went on, and attempt n ended the loop with this result. */
  ghost predicate EndsAt(cfg: Config, env: Environment, n: nat, r: Result<nat, SetupError>) {
    1 <= n <= MaxAttempts(cfg) && (forall k: nat :: 1 <= k < n ==> GoesOn(cfg, env, k)) && EndsWith(cfg, env, n, r)
  }

  /**
   At most max(StartupMaxAttempts, 1) attempts; the loop goes on exactly while attempts fail
   retryably, sleeps the backoff between attempts only, and never reaches the return after it. At the
   end one more pool is open than before if and only if the setup succeeded.
   */
  method SetupRuntime(cfg: Config, env: Environment, pools: Pools)
    returns (r: Result<nat, SetupError>, attempt: int32, sleeps: seq<int64>)
    requires pools.Valid()
    modifies pools
    ensures pools.Valid()
    ensures r.Ok? ==> r.value !in old(pools.open) && pools.open == old(pools.open) + {r.value}
    ensures r.Err? ==> pools.open == old(pools.open)
    ensures !cfg.hasUrl || !env.hasRegisterer <==> r == Err(InvalidInputs)
    ensures r == Err(InvalidInputs) ==> pools.created == old(pools.created)
    ensures attempt >= 1
    ensures r != Err(InvalidInputs) ==>
              && EndsAt(cfg, env, attempt as int, r)
              && pools.created == old(pools.created) + CreatedBy(env, attempt as int)
              && |sleeps| == attempt as int - 1
              && (forall n :: 0 <= n < |sleeps| ==> sleeps[n] as int == DelayAfter(cfg, n + 1))
  {
    attempt, sleeps := 1, [];
    if !cfg.hasUrl || !env.hasRegisterer {
      return Err(InvalidInputs), attempt, sleeps;
    }
    var maxAttempts: int32 := if cfg.maxAttempts < 1 then 1 else cfg.maxAttempts;
    while attempt <= maxAttempts
      invariant pools.Valid() && pools.open == old(pools.open)
      invariant 1 <= attempt <= maxAttempts
      invariant pools.created == old(pools.created) + CreatedBy(env, attempt as int - 1)
      invariant forall n: nat :: 1 <= n < attempt as int ==> GoesOn(cfg, env, n)
      invariant |sleeps| == attempt as int - 1
      invariant forall n :: 0 <= n < |sleeps| ==> sleeps[n] as int == DelayAfter(cfg, n + 1)
      decreases maxAttempts as int - attempt as int
    {
      var n := attempt as int;
      if env.contextBefore(n) != Active {
        return Err(StartupCanceled), attempt, sleeps;
      }
      var pool, retryable := StartupAttempt(pools, cfg.migrateOnStartup, env.attempt(n));
      if pool.Ok? {
        if !env.metricsRegister {
          pools.Close(pool.value);
          assert pools.open == old(pools.open);
          return Err(MetricsFailed), attempt, sleeps;
        }
        return Ok(pool.value), attempt, sleeps;
      }
      if !retryable {
        return Err(NotRetryable(pool.error)), attempt, sleeps;
      }
      if attempt == maxAttempts {
        return Err(Exhausted(pool.error)), attempt, sleeps;
      }
      var retryIn := StartupRetryDelay(cfg.backoffInitial, cfg.backoffMax, attempt);
      if retryIn > 0 && env.sleepInterrupted(n) {
        return Err(StartupCanceled), attempt, sleeps;
      }
      sleeps := sleeps + [retryIn];
      attempt := attempt + 1;
    }
    assert false;
    return Err(FellThrough), attempt, sleeps;
  }

  /** The environment determines the attempt and the result the loop ends with. */
  lemma EndIsUnique(cfg: Config, env: Environment, m: nat, n: nat, r: Result<nat, SetupError>, q: Result<nat, SetupError>)
    requires EndsAt(cfg, env, m, r) && EndsAt(cfg, env, n, q)
    ensures m == n && (r.Ok? <==> q.Ok?) && (r.Err? ==> r == q)
  {
    assert m < n ==> GoesOn(cfg, env, m);
    assert n < m ==> GoesOn(cfg, env, n);
  }

  /** A context that is done stays done. */
  ghost predicate DoneIsForGood(env: Environment) {
    forall n: nat, k: nat {:trigger env.attempt(n), env.contextBefore(k)} ::
      n < k && env.attempt(n).contextAfter != Active ==> env.contextBefore(k) == env.attempt(n).contextAfter
  }

  /**
   Once the caller's context is done when attempt n has failed, the setup fails without a further
   attempt or pool: at n itself when the caller cancelled or the attempt ran out of time, and otherwise,
   for an error that came while the deadline passed, by the next look at the context.
   */
  lemma CallerGoneEndsSetup(cfg: Config, env: Environment, n: nat, err: DbError, attempt: nat, r: Result<nat, SetupError>)
    requires EndsAt(cfg, env, attempt, r) && DoneIsForGood(env) && 1 <= n <= attempt
    requires FailsWith(cfg, env, n, err) && env.attempt(n).contextAfter != Active
    ensures CreatedBy(env, attempt) == CreatedBy(env, n) && r.Err?
    ensures attempt == n || (attempt == n + 1 && r == Err(StartupCanceled))
    ensures env.attempt(n).contextAfter == Canceled || err.isDeadline ==> attempt == n && r == Err(NotRetryable(err))
  {
    if attempt > n {
      assert GoesOn(cfg, env, n);
      assert env.contextBefore(n + 1) != Active;
      assert !GoesOn(cfg, env, n + 1);
    }
  }

  // ---- which failures the loop goes on after, said from the errors themselves ----

  /** Attempt n fails while the caller is still there, and nothing interrupts the sleep if there is one. */
  ghost predicate FailsUndisturbed(cfg: Config, env: Environment, n: nat, err: DbError) {
    FailsWith(cfg, env, n, err) && env.attempt(n).contextAfter == Active && !env.sleepInterrupted(n)
  }

  /** Not a cancellation and not a wrong URL, and the database did not answer: a refused connection, say. */
  predicate NoAnswer(err: DbError) {
    !err.isCanceled && !err.isUrlProblem && err.sqlState == None
  }

  ghost predicate FailsWithoutAnswer(cfg: Config, env: Environment, n: nat) {
    exists err :: FailsUndisturbed(cfg, env, n, err) && NoAnswer(err)
  }

  lemma NoAnswerGoesOn(cfg: Config, env: Environment, n: nat)
    requires FailsWithoutAnswer(cfg, env, n) && n < MaxAttempts(cfg)
    ensures GoesOn(cfg, env, n)
  {
  }

  /**
   A database that does not answer the first k-1 attempts and then comes up is waited for: the setup
   succeeds at attempt k, as long as that many attempts are configured.
   */
  lemma LateDatabaseIsReached(cfg: Config, env: Environment, k: nat, attempt: nat, r: Result<nat, SetupError>)
    requires EndsAt(cfg, env, attempt, r)
    requires 1 <= k && (k == 1 || k <= cfg.maxAttempts as int)
    requires forall n: nat :: 1 <= n < k ==> FailsWithoutAnswer(cfg, env, n)
    requires Succeeds(cfg, env, k) && env.metricsRegister
    ensures attempt == k && r.Ok?
  {
    if attempt < k {
      NoAnswerGoesOn(cfg, env, attempt);
    }
    assert attempt > k ==> GoesOn(cfg, env, k);
  }

  /** If it never answers, the configured number of attempts is made, one at least, and no more. */
  lemma SilentDatabaseExhaustsAttempts(cfg: Config, env: Environment, attempt: nat, r: Result<nat, SetupError>)
    requires EndsAt(cfg, env, attempt, r)
    requires forall n: nat :: 1 <= n <= attempt ==> FailsWithoutAnswer(cfg, env, n)
    ensures attempt == (if cfg.maxAttempts < 1 then 1 else cfg.maxAttempts as int) && r.Err? && r.error.Exhausted?
  {
    assert FailsWithoutAnswer(cfg, env, attempt);
    if attempt < MaxAttempts(cfg) {
      NoAnswerGoesOn(cfg, env, attempt);
    }
  }

  /** An answer of the database with this SQL state, in a plain error. */
  ghost predicate FailsWithState(cfg: Config, env: Environment, n: nat, code: string) {
    FailsUndisturbed(cfg, env, n, DbError(false, false, false, Some(code)))
  }

  /** Connection exceptions, rollbacks, lack of resources and system errors go on, whatever follows the class. */
  lemma PassingClassesGoOn(cfg: Config, env: Environment, n: nat, code: string, rest: string)
    requires FailsWithState(cfg, env, n, code) && n < MaxAttempts(cfg)
    requires code == "08" + rest || code == "40" + rest || code == "53" + rest || code == "58" + rest
    ensures GoesOn(cfg, env, n)
  {
    assert ("08" + rest)[..2] == "08" && ("40" + rest)[..2] == "40";
    assert ("53" + rest)[..2] == "53" && ("58" + rest)[..2] == "58";
  }

  /** So do a lock that is not available, the two shutdowns, and a server that cannot accept connections yet. */
  lemma PassingCodesGoOn(cfg: Config, env: Environment, n: nat, code: string)
    requires FailsWithState(cfg, env, n, code) && n < MaxAttempts(cfg)
    requires code == "55P03" || code == "57P01" || code == "57P02" || code == "57P03"
    ensures GoesOn(cfg, env, n)
  {
  }

  /** Two characters that are none of the four classes. */
  predicate OtherClass(a: char, b: char) {
    [a, b] != "08" && [a, b] != "40" && [a, b] != "53" && [a, b] != "58"
  }

  /** Any other state, a cancellation and a wrong URL end the setup at that attempt. */
  lemma LastingFailureEndsSetup(
    cfg: Config, env: Environment, n: nat, err: DbError, attempt: nat, r: Result<nat, SetupError>)
    requires EndsAt(cfg, env, attempt, r) && 1 <= n <= attempt && FailsWith(cfg, env, n, err)
    requires || err.isCanceled
             || (!err.isDeadline && err.isUrlProblem)
             || (!err.isDeadline && err.sqlState.Some? && IsLasting(err.sqlState.value))
    ensures attempt == n && r == Err(NotRetryable(err))
  {
    if !err.isCanceled && !err.isUrlProblem {
      LastingIsNotRetried(err.sqlState.value);
    }
    assert !Retryable(cfg, env, n);
    assert attempt > n ==> GoesOn(cfg, env, n);
  }

  predicate IsLasting(code: string) {
    || |code| < 2
    || (OtherClass(code[0], code[1]) && code != "55P03" && code != "57P01" && code != "57P02" && code != "57P03")
  }

  lemma LastingIsNotRetried(code: string)
    requires IsLasting(code)
    ensures !IsRetryableSqlState(code)
  {
    if |code| >= 2 {
      assert code[..2] == [code[0], code[1]];
    }
  }

  /** A wrong password, a missing database and a cancelled statement are among them. */
  lemma SomeLastingCodes()
    ensures IsLasting("28P01") && IsLasting("3D000") && IsLasting("57014") && IsLasting("5")
  {
  }
}
