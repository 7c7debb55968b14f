/** The cleanup stack and the order in which the server acquires, registers and releases its resources. */
module ServerLifecycle {
  import opened Wrappers

  datatype Cleanup = ShutdownTracing | ClosePool | CloseRequestAudit | CloseOutboundAudit | CloseValkey

  function Reversed<T>(s: seq<T>): (r: seq<T>)
    ensures |r| == |s|
    ensures forall i :: 0 <= i < |s| ==> r[i] == s[|s| - 1 - i]
  {
    if s == [] then [] else Reversed(s[1..]) + [s[0]]
  }

  class CleanupStack {
    var funcs: seq<Cleanup>
    var ran: bool
    var log: seq<Cleanup>   // the cleanups that have run, in order

    constructor ()
      ensures funcs == [] && !ran && log == []
    {
      funcs, ran, log := [], false, [];
    }

    /** A nil callback is ignored. */
    method Add(cleanup: Option<Cleanup>)
      modifies this`funcs
      ensures funcs == old(funcs) + (if cleanup.Some? then [cleanup.value] else [])
    {
      if cleanup.Some? {
        funcs := funcs + [cleanup.value];
      }
    }

    /** The first call runs everything once, last registered first; later calls do nothing. */
    method Run()
      modifies this`ran, this`log
      ensures ran
      ensures log == old(log) + (if old(ran) then [] else Reversed(funcs))
    {
      if ran {
        return;
      }
      ran := true;
      var i := |funcs|;
      while i > 0
        invariant 0 <= i <= |funcs| && ran
        invariant log == old(log) + Reversed(funcs)[..|funcs| - i]
      {
        i := i - 1;
        log := log + [funcs[i]];
      }
    }
  }

  datatype RateLimiterSetup = LimiterDisabled | ClientFailed | StoreFailed | LimiterReady

  /** What goes wrong, or not, on the way up. */
  datatype Startup = Startup(
    configLoads: bool,
    metricsReady: bool,
    databaseReady: bool,
    requestAuditEnabled: bool,
    limiter: RateLimiterSetup,
    limiterFailOpen: bool,
    notesReady: bool,
    weatherReady: bool,
    publicReady: bool,
    infraReady: bool,
    listenersBind: bool)

  /** How a server that came up goes down: one server stops by itself, or a signal arrives. */
  datatype Ending = ServerStopped | Interrupted(shutdownFails: bool, serveFails: bool)

  /** What Run creates and has to give back. */
  datatype Resource = Tracing | Pool | RequestAuditQueue | OutboundAuditQueue | ValkeyClient

  function CleanupOf(r: Resource): (c: Cleanup) {
    match r
    case Tracing => ShutdownTracing
    case Pool => ClosePool
    case RequestAuditQueue => CloseRequestAudit
    case OutboundAuditQueue => CloseOutboundAudit
    case ValkeyClient => CloseValkey
  }

  function CleanupsOf(resources: seq<Resource>): (cleanups: seq<Cleanup>)
    ensures |cleanups| == |resources| && forall i :: 0 <= i < |resources| ==> cleanups[i] == CleanupOf(resources[i])
  {
    seq(|resources|, i requires 0 <= i < |resources| => CleanupOf(resources[i]))
  }

  lemma CleanupsGrow(resources: seq<Resource>, r: Resource)
    ensures CleanupsOf(resources + [r]) == CleanupsOf(resources) + [CleanupOf(r)]
  {
  }

  /** Which resources come into being at all, each from how far the startup gets. */
  predicate Exists(up: Startup, r: Resource) {
    match r
    case Tracing => up.configLoads
    case Pool => up.configLoads && up.metricsReady && up.databaseReady
    case RequestAuditQueue => up.configLoads && up.metricsReady && up.databaseReady && up.requestAuditEnabled
    case OutboundAuditQueue => up.configLoads && up.metricsReady && up.databaseReady
    case ValkeyClient =>
      && up.configLoads && up.metricsReady && up.databaseReady
      && (up.limiter.StoreFailed? || up.limiter.LimiterReady?)
  }

  /** The resources of the process, in the order in which they were created. */
  class Host {
    var acquired: seq<Resource>

    constructor ()
      ensures acquired == []
    {
      acquired := [];
    }

    method Create(r: Resource)
      modifies this
      ensures acquired == old(acquired) + [r]
    {
      acquired := acquired + [r];
    }
  }

  /** The cleanups on the stack when Run leaves, by how far the startup got. */
  function Registered(up: Startup): seq<Cleanup> {
    if !up.configLoads then []
    else if !up.metricsReady || !up.databaseReady then [ShutdownTracing]
    else
      [ShutdownTracing, ClosePool]
      + (if up.requestAuditEnabled then [CloseRequestAudit] else [])
      + [CloseOutboundAudit]
      + (if up.limiter.StoreFailed? || up.limiter.LimiterReady? then [CloseValkey] else [])
  }

  ghost predicate Distinct<T>(s: seq<T>) {
    forall i, j :: 0 <= i < j < |s| ==> s[i] != s[j]
  }

  /** Whatever exists is registered, and nothing else is. */
  lemma RegisteredIsWhatExists(up: Startup, r: Resource)
    ensures CleanupOf(r) in Registered(up) <==> Exists(up, r)
  {
  }

  lemma RegisteredDistinct(up: Startup)
    ensures Distinct(Registered(up))
  {
  }

  lemma ReversedDistinct<T>(s: seq<T>)
    requires Distinct(s)
    ensures Distinct(Reversed(s))
  {
  }

  /** The client is created before the store, so a store that fails leaves a client to close. */
  method SetupRateLimiter(up: Startup, stack: CleanupStack, host: Host) returns (ok: bool)
    requires stack.funcs == CleanupsOf(host.acquired)
    modifies stack`funcs, host
    ensures stack.funcs == CleanupsOf(host.acquired)
    ensures host.acquired == old(host.acquired)
              + (if up.limiter.StoreFailed? || up.limiter.LimiterReady? then [ValkeyClient] else [])
    ensures up.limiter.LimiterDisabled? || up.limiter.LimiterReady? ==> ok
    ensures up.limiter.StoreFailed? ==> !ok
    ensures up.limiter.ClientFailed? ==> ok == up.limiterFailOpen
  {
    match up.limiter
    case LimiterDisabled =>
      return true;
    case ClientFailed =>
      return up.limiterFailOpen;
    case StoreFailed =>
      CleanupsGrow(host.acquired, ValkeyClient);
      host.Create(ValkeyClient);
      stack.Add(Some(CloseValkey));
      return false;
    case LimiterReady =>
      CleanupsGrow(host.acquired, ValkeyClient);
      host.Create(ValkeyClient);
      stack.Add(Some(CloseValkey));
      return true;
  }

  /** Every stage of the startup succeeds. */
  predicate ComesUp(up: Startup) {
    && up.configLoads && up.metricsReady && up.databaseReady
    && !up.limiter.StoreFailed? && (up.limiter.ClientFailed? ==> up.limiterFailOpen)
    && up.notesReady && up.weatherReady && up.publicReady && up.infraReady && up.listenersBind
  }

  /** From the configuration to the rate limiter: everything that is created is registered at once. */
  method Acquire(up: Startup, stack: CleanupStack, host: Host) returns (ok: bool)
    requires up.configLoads && stack.funcs == [] && host.acquired == []
    modifies stack`funcs, host
    ensures stack.funcs == CleanupsOf(host.acquired) == Registered(up)
    ensures forall r :: r in host.acquired <==> Exists(up, r)
    ensures ok <==> up.metricsReady && up.databaseReady
                    && !up.limiter.StoreFailed? && (up.limiter.ClientFailed? ==> up.limiterFailOpen)
  {
    host.Create(Tracing);
    stack.Add(Some(ShutdownTracing));
    if !up.metricsReady {
      return false;
    }
    if !up.databaseReady {
      return false;
    }
    host.Create(Pool);
    stack.Add(Some(ClosePool));
    if up.requestAuditEnabled {
      host.Create(RequestAuditQueue);
      stack.Add(Some(CloseRequestAudit));
    }
    host.Create(OutboundAuditQueue);
    stack.Add(Some(CloseOutboundAudit));
    ok := SetupRateLimiter(up, stack, host);
  }

  /** Everything Run does between creating the cleanup stack and its deferred `Run` of it. */
  method RunBody(up: Startup, ending: Ending, stack: CleanupStack, host: Host) returns (ok: bool)
    requires up.configLoads && stack.funcs == [] && !stack.ran && stack.log == [] && host.acquired == []
    modifies stack, host
    ensures stack.funcs == CleanupsOf(host.acquired) == Registered(up)
    ensures forall r :: r in host.acquired <==> Exists(up, r)
    ensures stack.ran == ComesUp(up)
    ensures stack.log == if stack.ran then Reversed(stack.funcs) else []
    ensures ok <==> ComesUp(up) && ending == Interrupted(false, false)
  {
    var acquired := Acquire(up, stack, host);
    if !acquired {
      return false;
    }
    if !up.notesReady || !up.weatherReady || !up.publicReady || !up.infraReady || !up.listenersBind {
      return false;
    }
    // shutdownAll
    stack.Run();
    return ending == Interrupted(false, false);
  }

  /**
   Every exit path of Run: the cleanup of each resource created on the way has run exactly once, in
   reverse order of creation, whether or not shutdownAll ran the stack before the deferred call did.
   */
  method Run(up: Startup, ending: Ending, stack: CleanupStack, host: Host) returns (ok: bool)
    requires stack.funcs == [] && !stack.ran && stack.log == [] && host.acquired == []
    modifies stack, host
    ensures forall r :: r in host.acquired <==> Exists(up, r)
    ensures Distinct(host.acquired)
    ensures stack.log == Reversed(CleanupsOf(host.acquired)) == Reversed(Registered(up)) && Distinct(stack.log)
    ensures ok ==> up.configLoads && up.metricsReady && up.databaseReady && up.notesReady && up.weatherReady
    ensures ok ==> up.publicReady && up.infraReady && up.listenersBind && ending == Interrupted(false, false)
    ensures ok <==> ComesUp(up) && ending == Interrupted(false, false)
  {
    if !up.configLoads {
      return false;
    }
    ok := RunBody(up, ending, stack, host);
    stack.Run();
    RegisteredDistinct(up);
    ReversedDistinct(stack.funcs);
    assert forall i, j :: 0 <= i < j < |host.acquired| ==> stack.funcs[i] != stack.funcs[j];
  }

  /** No audit queue is closed after the pool. */
  predicate PoolAfterAudits(todo: seq<Cleanup>) {
    forall i, j :: 0 <= i < j < |todo| && todo[i] == ClosePool
      ==> todo[j] != CloseRequestAudit && todo[j] != CloseOutboundAudit
  }

  lemma PoolClosesAfterAudits(up: Startup)
    ensures PoolAfterAudits(Reversed(Registered(up)))
    ensures forall c :: c in Registered(up) <==> c in Reversed(Registered(up))
  {
    var funcs := Registered(up);
    var todo := Reversed(funcs);
    forall c | c in funcs
      ensures c in todo
    {
      var i :| 0 <= i < |funcs| && funcs[i] == c;
      assert todo[|funcs| - 1 - i] == c;
    }
  }
}
