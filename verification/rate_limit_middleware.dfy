/** The HTTP middleware in front of the handlers, over whole runs of requests from many clients. */
module RateLimitMiddleware {
  import opened Wrappers
  import opened Rounding
  import opened TokenBucket
  import opened BucketRun
  import opened ValkeyStore
  import opened RateLimitHeaders

  datatype Config = Config(
    server: string,
    failOpen: bool,
    defaultPolicy: Policy,
    overrides: map<string, RouteOverride>)

  /** What the middleware reads off a request: an OPTIONS flag, its route label and client address. */
  datatype Request = Request(preflight: bool, route: string, clientIp: string)

  datatype Outcome = Next | TooManyRequests(headers: Headers) | Unavailable

  function RateLimitKey(server: string, route: string, clientIp: string): string {
    server + ":" + route + ":" + clientIp
  }

  /** The policy a request is checked against; None when it goes straight to the handler. */
  function LimitFor(cfg: Config, req: Request): Option<Policy> {
    if req.preflight then None
    else
      var policy := ResolvePolicy(cfg.defaultPolicy, cfg.overrides, req.route);
      if policy.None? || req.clientIp == "" then None else policy
  }

  function Respond(cfg: Config, p: Policy, result: Result<Decision, StoreError>): Outcome {
    match result
    case Err(_) => if cfg.failOpen then Next else Unavailable
    case Ok(decision) => if decision.allowed then Next else TooManyRequests(HeaderValues(p, decision))
  }

  /**
   The outcome of a limited request, said from the backend and the script alone: the script decides when it
   ran and answered, otherwise failing open or closed does.
   */
  predicate Settled(cfg: Config, p: Policy, h: Hash, nowMs: int, backend: Backend, outcome: Outcome) {
    if p.Valid() && backend == Answered then
      if Script(p, h, nowMs).reply.allowed == 1 then outcome == Next
      else
        && outcome.TooManyRequests?
        && outcome.headers.quota == p.burst
        && outcome.headers.remaining == Max(0, Script(p, h, nowMs).reply.remaining)
        && outcome.headers.retryAfterSeconds == RetryAfterSeconds(p, h, nowMs)
        && outcome.headers.windowSeconds == PolicyWindowSeconds(p)
    else
      outcome == if cfg.failOpen then Next else Unavailable
  }

  /** What one HTTP exchange has done so far. */
  class Exchange {
    var handlerCalls: nat
    var rejections: seq<Outcome>

    constructor ()
      ensures handlerCalls == 0 && rejections == []
    {
      handlerCalls, rejections := 0, [];
    }
  }

  /** The handler: every request gets exactly one of the next handler, a 429 and a 503. */
  method ServeHTTP(cfg: Config, store: Store, req: Request, nowMs: int, serverMs: int, backend: Backend, x: Exchange)
    requires x.handlerCalls == 0 && x.rejections == []
    modifies store, x
    ensures x.handlerCalls + |x.rejections| == 1
    ensures LimitFor(cfg, req).None? ==> x.handlerCalls == 1 && store.keys == old(store.keys)
    ensures LimitFor(cfg, req).Some? ==>
              var p := LimitFor(cfg, req).value;
              var key := store.BucketKey(RateLimitKey(cfg.server, req.route, req.clientIp));
              var outcome := Respond(cfg, p, AllowResult(old(store.keys), key, p, nowMs, serverMs, backend));
              && store.keys == AfterAllow(old(store.keys), key, p, nowMs, serverMs, backend)
              && (outcome == Next ==> x.handlerCalls == 1)
              && (outcome != Next ==> x.rejections == [outcome])
              && Settled(cfg, p, Visible(old(store.keys), key, serverMs), nowMs, backend, outcome)
    ensures LimitFor(cfg, req).Some? <==>
              && !req.preflight && req.clientIp != ""
              && (req.route in cfg.overrides ==> !cfg.overrides[req.route].disabled)
  {
    if req.preflight {
      x.handlerCalls := x.handlerCalls + 1;
      return;
    }
    var policy := ResolvePolicy(cfg.defaultPolicy, cfg.overrides, req.route);
    if policy.None? || req.clientIp == "" {
      x.handlerCalls := x.handlerCalls + 1;
      return;
    }
    var result := store.Allow(RateLimitKey(cfg.server, req.route, req.clientIp), policy.value, nowMs, serverMs, backend);
    if result.Err? {
      if cfg.failOpen {
        x.handlerCalls := x.handlerCalls + 1;
      } else {
        x.rejections := x.rejections + [Unavailable];
      }
      return;
    }
    if result.value.allowed {
      x.handlerCalls := x.handlerCalls + 1;
      return;
    }
    x.rejections := x.rejections + [TooManyRequests(HeaderValues(policy.value, result.value))];
  }

  // ---- whole runs, with one clock for the service and the server ----

  datatype Event = Event(req: Request, nowMs: int, backend: Backend)

  /** `name` maps a rate-limit key to its Valkey key. */
  function KeyOf(cfg: Config, name: string -> string, req: Request): string {
    name(RateLimitKey(cfg.server, req.route, req.clientIp))
  }

  function KeysBefore(cfg: Config, name: string -> string, events: seq<Event>, n: nat): Keyspace
    requires n <= |events|
  {
    if n == 0 then map[]
    else
      var keys, e := KeysBefore(cfg, name, events, n - 1), events[n - 1];
      var limit := LimitFor(cfg, e.req);
      if limit.None? then keys
      else AfterAllow(keys, KeyOf(cfg, name, e.req), limit.value, e.nowMs, e.nowMs, e.backend)
  }

  function OutcomeAt(cfg: Config, name: string -> string, events: seq<Event>, n: nat): Outcome
    requires n < |events|
  {
    var e := events[n];
    var limit := LimitFor(cfg, e.req);
    if limit.None? then Next
    else
      var keys := KeysBefore(cfg, name, events, n);
      Respond(cfg, limit.value, AllowResult(keys, KeyOf(cfg, name, e.req), limit.value, e.nowMs, e.nowMs, e.backend))
  }

  /** A client's limited request on a route. */
  predicate Hits(e: Event, route: string, client: string) {
    !e.req.preflight && e.req.route == route && e.req.clientIp == client
  }

  /** The clock readings at which the script ran for one client on one route. */
  function ScriptTimes(events: seq<Event>, n: nat, route: string, client: string): seq<int>
    requires n <= |events|
  {
    if n == 0 then []
    else
      var e, before := events[n - 1], ScriptTimes(events, n - 1, route, client);
      if Hits(e, route, client) && e.backend != CommandLost then before + [e.nowMs] else before
  }

  /** Handler calls for one client on one route among events i, ..., n-1. */
  function HandlerCalls(cfg: Config, name: string -> string, events: seq<Event>, i: nat, n: nat, route: string, client: string): nat
    requires i <= n <= |events|
  {
    if i == n then 0
    else
      HandlerCalls(cfg, name, events, i, n - 1, route, client)
      + (if Hits(events[n - 1], route, client) && OutcomeAt(cfg, name, events, n - 1) == Next then 1 else 0)
  }

  ghost predicate Injective(name: string -> string) {
    forall a, b :: name(a) == name(b) ==> a == b
  }

  ghost predicate ColonFree(cfg: Config, events: seq<Event>) {
    ':' !in cfg.server && forall e :: e in events ==> ':' !in e.req.route
  }

  // ---- keys ----

  lemma FirstColonSplits(a: string, x: string, b: string, y: string)
    requires ':' !in a && ':' !in b && a + ":" + x == b + ":" + y
    ensures a == b && x == y
  {
    var s, t := a + ":" + x, b + ":" + y;
    assert s[|a|] == ':' && t[|b|] == ':';
    assert a == s[..|a|] == t[..|b|] == b;
    assert x == s[|a| + 1..] == t[|b| + 1..] == y;
  }

  /** Colon-free labels keep keys apart, whatever colons the client address contains. */
  lemma RateLimitKeyInjective(server: string, route: string, client: string, server': string, route': string, client': string)
    requires ':' !in server && ':' !in route && ':' !in server' && ':' !in route'
    ensures RateLimitKey(server, route, client) == RateLimitKey(server', route', client')
            <==> server == server' && route == route' && client == client'
  {
    if RateLimitKey(server, route, client) == RateLimitKey(server', route', client') {
      assert server + ":" + (route + ":" + client) == RateLimitKey(server, route, client);
      assert server' + ":" + (route' + ":" + client') == RateLimitKey(server', route', client');
      FirstColonSplits(server, route + ":" + client, server', route' + ":" + client');
      FirstColonSplits(route, client, route', client');
    }
  }

  /** What a key starts with, whoever the client is. */
  function LabelPart(server: string, route: string): string {
    server + ":" + route + ":"
  }

  lemma KeyIsLabelsAndClient(server: string, route: string, client: string)
    ensures RateLimitKey(server, route, client) == LabelPart(server, route) + client
  {
  }

  /** Some client of one server and route shares a key with some client of the other. */
  ghost predicate CanCollide(isClient: string -> bool, server: string, route: string, server': string, route': string) {
    exists client, client' :: isClient(client) && isClient(client')
      && RateLimitKey(server, route, client) == RateLimitKey(server', route', client')
  }

  /** `short` is a start of `long`, and what is left of it makes a client of some client. */
  ghost predicate RestJoinsClients(isClient: string -> bool, short: string, long: string) {
    short <= long && exists client :: isClient(client) && isClient(long[|short|..] + client)
  }

  lemma RestCollides(isClient: string -> bool, server: string, route: string, server': string, route': string)
    requires RestJoinsClients(isClient, LabelPart(server, route), LabelPart(server', route'))
    ensures CanCollide(isClient, server, route, server', route')
    ensures CanCollide(isClient, server', route', server, route)
  {
    var short, long := LabelPart(server, route), LabelPart(server', route');
    var rest := long[|short|..];
    var client :| isClient(client) && isClient(rest + client);
    KeyIsLabelsAndClient(server, route, rest + client);
    KeyIsLabelsAndClient(server', route', client);
    assert short + (rest + client) == (short + rest) + client;
    assert RateLimitKey(server, route, rest + client) == RateLimitKey(server', route', client);
  }

  lemma CommonStartIsPrefix(a: string, x: string, b: string, y: string)
    requires a + x == b + y
    ensures a <= b || b <= a
  {
    if |a| <= |b| {
      assert a == (a + x)[..|a|] == (b + y)[..|a|] == b[..|a|];
    } else {
      assert b == (b + y)[..|b|] == (a + x)[..|b|] == a[..|b|];
    }
  }

  lemma KeysSplit(a: string, x: string, b: string, y: string)
    requires a + x == b + y && a <= b
    ensures x == b[|a|..] + y
  {
    assert x == (a + x)[|a|..];
    assert b[|a|..] + y == (b + y)[|a|..];
  }

  /**
   Whatever the clients are, two servers' routes can share a bucket if and only if the labels of one are a
   start of the other's and the rest of those, put before some client, is a client again.
   */
  lemma LabelsCollideIffRestJoinsClients(
    isClient: string -> bool, server: string, route: string, server': string, route': string)
    ensures var a, b := LabelPart(server, route), LabelPart(server', route');
            CanCollide(isClient, server, route, server', route')
            <==> RestJoinsClients(isClient, a, b) || RestJoinsClients(isClient, b, a)
  {
    var a, b := LabelPart(server, route), LabelPart(server', route');
    if CanCollide(isClient, server, route, server', route') {
      var client, client' :| isClient(client) && isClient(client')
        && RateLimitKey(server, route, client) == RateLimitKey(server', route', client');
      KeyIsLabelsAndClient(server, route, client);
      KeyIsLabelsAndClient(server', route', client');
      CommonStartIsPrefix(a, client, b, client');
      if a <= b {
        KeysSplit(a, client, b, client');
      } else {
        KeysSplit(b, client', a, client);
      }
    }
    if RestJoinsClients(isClient, a, b) {
      RestCollides(isClient, server, route, server', route');
    }
    if RestJoinsClients(isClient, b, a) {
      RestCollides(isClient, server', route', server, route);
    }
  }

  /** The clients the middleware limits, as far as their text goes. */
  function NonEmpty(): string -> bool {
    client => client != ""
  }

  lemma RestJoinsNonEmpty(short: string, long: string)
    requires short <= long
    ensures RestJoinsClients(NonEmpty(), short, long)
  {
    assert NonEmpty()("x") && NonEmpty()(long[|short|..] + "x");
  }

  /** For non-empty clients of any text: if and only if the labels of one are a start of the other's. */
  lemma LabelsCollideIffPrefix(server: string, route: string, server': string, route': string)
    ensures var a, b := LabelPart(server, route), LabelPart(server', route');
            CanCollide(NonEmpty(), server, route, server', route') <==> a <= b || b <= a
  {
    var a, b := LabelPart(server, route), LabelPart(server', route');
    LabelsCollideIffRestJoinsClients(NonEmpty(), server, route, server', route');
    if a <= b {
      RestJoinsNonEmpty(a, b);
    }
    if b <= a {
      RestJoinsNonEmpty(b, a);
    }
  }

  /** With a colon in a route label the two IPv6 clients 1:2::3 and 2::3 share one bucket. */
  lemma ColonInRouteCollides()
    ensures RateLimitKey("public", "x", "1:2::3") == RateLimitKey("public", "x:1", "2::3")
    ensures CanCollide(NonEmpty(), "public", "x", "public", "x:1")
  {
    assert RateLimitKey("public", "x", "1:2::3") == "public:x:1:2::3";
    assert RateLimitKey("public", "x:1", "2::3") == "public:x:1:2::3";
  }

  // ---- a client's bucket depends on its own script runs only ----

  lemma {:induction false} StoredPrefix(p: Policy, times: seq<int>, t: int, n: nat)
    requires p.Valid() && n <= |times|
    ensures Stored(p, MISSING, times + [t], n) == Stored(p, MISSING, times, n)
  {
    if n == 0 {
    } else {
      StoredPrefix(p, times, t, n - 1);
    }
  }

  lemma {:induction false} AllowedInPrefix(p: Policy, times: seq<int>, t: int, i: nat, n: nat)
    requires p.Valid() && i <= n <= |times|
    ensures AllowedIn(p, MISSING, times + [t], i, n) == AllowedIn(p, MISSING, times, i, n)
  {
    if i == n {
    } else {
      AllowedInPrefix(p, times, t, i, n - 1);
      StoredPrefix(p, times, t, n - 1);
    }
  }

  /** The key holds exactly what the client's own script runs left there. */
  ghost predicate FollowsOwnTimes(keys: Keyspace, key: string, p: Policy, times: seq<int>)
    requires p.Valid()
  {
    if times == [] then key !in keys
    else
      && key in keys
      && keys[key].hash == Stored(p, MISSING, times, |times|)
      && keys[key].hash.Written()
      && keys[key].expiresAtMs == keys[key].hash.updatedAtMs.value + TtlMs(p)
  }

  lemma ExpiryIsInvisible(keys: Keyspace, key: string, p: Policy, times: seq<int>, t: int)
    requires p.Valid() && FollowsOwnTimes(keys, key, p, times)
    ensures Script(p, Visible(keys, key, t), t) == Script(p, Stored(p, MISSING, times, |times|), t)
  {
    if times != [] && t > keys[key].expiresAtMs {
      ExpiredBucketIsFull(p, keys[key].hash, t);
    }
  }

  lemma OwnScriptRun(keys: Keyspace, key: string, p: Policy, times: seq<int>, t: int, backend: Backend)
    requires p.Valid() && FollowsOwnTimes(keys, key, p, times) && backend != CommandLost
    ensures FollowsOwnTimes(AfterAllow(keys, key, p, t, t, backend), key, p, times + [t])
  {
    ExpiryIsInvisible(keys, key, p, times, t);
    StoredPrefix(p, times, t, |times|);
    StoredReachable(p, MISSING, times, |times|);
    LevelBounds(p, Stored(p, MISSING, times, |times|), t);
    assert Stored(p, MISSING, times + [t], |times| + 1) == Script(p, Stored(p, MISSING, times, |times|), t).hash;
  }

  lemma {:induction false} BucketFollowsOwnTimes(
    cfg: Config, name: string -> string, events: seq<Event>, n: nat, p: Policy, req: Request)
    requires n <= |events| && Injective(name) && ColonFree(cfg, events) && ':' !in req.route
    requires LimitFor(cfg, req) == Some(p) && p.Valid()
    ensures FollowsOwnTimes(KeysBefore(cfg, name, events, n), KeyOf(cfg, name, req), p,
                            ScriptTimes(events, n, req.route, req.clientIp))
  {
    if n == 0 {
    } else {
      BucketFollowsOwnTimes(cfg, name, events, n - 1, p, req);
      var e, keys := events[n - 1], KeysBefore(cfg, name, events, n - 1);
      var times := ScriptTimes(events, n - 1, req.route, req.clientIp);
      assert e in events;
      RateLimitKeyInjective(cfg.server, e.req.route, e.req.clientIp, cfg.server, req.route, req.clientIp);
      if Hits(e, req.route, req.clientIp) && e.backend != CommandLost {
        OwnScriptRun(keys, KeyOf(cfg, name, req), p, times, e.nowMs, e.backend);
      }
    }
  }

  /** What one limited request gets, given the client's own script runs before it. */
  function OwnOutcome(cfg: Config, p: Policy, times: seq<int>, e: Event): Outcome {
    Respond(cfg, p,
      if !p.Valid() then Err(InvalidPolicy)
      else if e.backend != Answered then Err(BackendFailed)
      else Ok(Decode(Script(p, Stored(p, MISSING, times, |times|), e.nowMs).reply)))
  }

  lemma OutcomeFollowsOwnTimes(cfg: Config, name: string -> string, events: seq<Event>, n: nat, p: Policy)
    requires n < |events| && Injective(name) && ColonFree(cfg, events)
    requires LimitFor(cfg, events[n].req) == Some(p)
    ensures OutcomeAt(cfg, name, events, n)
         == OwnOutcome(cfg, p, ScriptTimes(events, n, events[n].req.route, events[n].req.clientIp), events[n])
  {
    var e := events[n];
    if p.Valid() {
      BucketFollowsOwnTimes(cfg, name, events, n, p, e.req);
      ExpiryIsInvisible(KeysBefore(cfg, name, events, n), KeyOf(cfg, name, e.req), p,
                        ScriptTimes(events, n, e.req.route, e.req.clientIp), e.nowMs);
    }
  }

  /**
   In any traffic a limited request gets the handler, a 429 or a 503 as the backend and the script run on its
   client's own history say.
   */
  lemma OutcomeIsSettled(cfg: Config, name: string -> string, events: seq<Event>, n: nat, p: Policy)
    requires n < |events| && Injective(name) && ColonFree(cfg, events)
    requires LimitFor(cfg, events[n].req) == Some(p)
    ensures var e := events[n];
            var times := ScriptTimes(events, n, e.req.route, e.req.clientIp);
            p.Valid() ==> Settled(cfg, p, Stored(p, MISSING, times, |times|), e.nowMs, e.backend, OutcomeAt(cfg, name, events, n))
    ensures !p.Valid() ==> OutcomeAt(cfg, name, events, n) == if cfg.failOpen then Next else Unavailable
  {
    OutcomeFollowsOwnTimes(cfg, name, events, n, p);
  }

  lemma FailOpenSettles(cfg: Config, p: Policy, h: Hash, nowMs: int, backend: Backend, outcome: Outcome)
    requires p.Valid() && cfg.failOpen && Settled(cfg, p, h, nowMs, backend, outcome)
    ensures outcome != Next <==> backend == Answered && !Allows(p, h, nowMs)
  {
  }

  lemma LastAllowed(p: Policy, times: seq<int>, t: int)
    requires p.Valid()
    ensures AllowedAt(p, MISSING, times + [t], |times|) <==> Allows(p, Stored(p, MISSING, times, |times|), t)
  {
    StoredPrefix(p, times, t, |times|);
  }

  /** When failing open a client is turned away only where its own script run denied it, and always there. */
  lemma FailOpenRejectsExactlyDenied(cfg: Config, name: string -> string, events: seq<Event>, n: nat, p: Policy)
    requires n < |events| && Injective(name) && ColonFree(cfg, events) && cfg.failOpen
    requires LimitFor(cfg, events[n].req) == Some(p) && p.Valid()
    ensures var e := events[n];
            var times := ScriptTimes(events, n, e.req.route, e.req.clientIp);
            OutcomeAt(cfg, name, events, n) != Next
            <==> e.backend == Answered && !AllowedAt(p, MISSING, times + [e.nowMs], |times|)
  {
    var e := events[n];
    var times := ScriptTimes(events, n, e.req.route, e.req.clientIp);
    OutcomeIsSettled(cfg, name, events, n, p);
    FailOpenSettles(cfg, p, Stored(p, MISSING, times, |times|), e.nowMs, e.backend, OutcomeAt(cfg, name, events, n));
    LastAllowed(p, times, e.nowMs);
  }

  /** The requests of one client on one route. */
  function OwnEvents(events: seq<Event>, n: nat, route: string, client: string): (own: seq<Event>)
    requires n <= |events|
    ensures forall e :: e in own ==> e in events
  {
    if n == 0 then []
    else
      var before := OwnEvents(events, n - 1, route, client);
      if Hits(events[n - 1], route, client) then before + [events[n - 1]] else before
  }

  lemma {:induction false} ScriptTimesPrefix(events: seq<Event>, more: seq<Event>, n: nat, route: string, client: string)
    requires n <= |events|
    ensures ScriptTimes(events + more, n, route, client) == ScriptTimes(events, n, route, client)
  {
    if n == 0 {
    } else {
      ScriptTimesPrefix(events, more, n - 1, route, client);
    }
  }

  lemma {:induction false} OwnEventsKeepScriptTimes(events: seq<Event>, n: nat, route: string, client: string)
    requires n <= |events|
    ensures var own := OwnEvents(events, n, route, client);
            ScriptTimes(own, |own|, route, client) == ScriptTimes(events, n, route, client)
  {
    if n == 0 {
    } else {
      OwnEventsKeepScriptTimes(events, n - 1, route, client);
      var own := OwnEvents(events, n - 1, route, client);
      if Hits(events[n - 1], route, client) {
        ScriptTimesPrefix(own, [events[n - 1]], |own|, route, client);
        assert (own + [events[n - 1]])[|own|] == events[n - 1];
      }
    }
  }

  /** Erasing everyone else's traffic changes nothing for a client: same outcome, same headers. */
  lemma OtherClientsAreInvisible(cfg: Config, name: string -> string, events: seq<Event>, n: nat)
    requires n < |events| && Injective(name) && ColonFree(cfg, events)
    ensures var own := OwnEvents(events, n, events[n].req.route, events[n].req.clientIp);
            OutcomeAt(cfg, name, own + [events[n]], |own|) == OutcomeAt(cfg, name, events, n)
  {
    var e := events[n];
    var route, client := e.req.route, e.req.clientIp;
    var own := OwnEvents(events, n, route, client);
    if LimitFor(cfg, e.req).Some? {
      OutcomeFollowsOwnTimes(cfg, name, events, n, LimitFor(cfg, e.req).value);
      OutcomeFollowsOwnTimes(cfg, name, own + [e], |own|, LimitFor(cfg, e.req).value);
      ScriptTimesPrefix(own, [e], |own|, route, client);
      OwnEventsKeepScriptTimes(events, n, route, client);
    }
  }

  // ---- the window bound ----

  lemma OwnCallIsAllowed(
    cfg: Config, name: string -> string, events: seq<Event>, n: nat, p: Policy, times: seq<int>, first: nat)
    requires n < |events| && Injective(name) && ColonFree(cfg, events) && !cfg.failOpen
    requires LimitFor(cfg, events[n].req) == Some(p) && p.Valid() && first <= |times|
    requires times == ScriptTimes(events, n, events[n].req.route, events[n].req.clientIp)
    ensures OutcomeAt(cfg, name, events, n) == Next ==>
              events[n].backend != CommandLost && Allows(p, Stored(p, MISSING, times, |times|), events[n].nowMs)
    ensures AllowedIn(p, MISSING, times + [events[n].nowMs], first, |times| + 1)
         == AllowedIn(p, MISSING, times, first, |times|)
          + (if Allows(p, Stored(p, MISSING, times, |times|), events[n].nowMs) then 1 else 0)
  {
    OutcomeFollowsOwnTimes(cfg, name, events, n, p);
    AllowedInPrefix(p, times, events[n].nowMs, first, |times|);
    StoredPrefix(p, times, events[n].nowMs, |times|);
  }

  lemma {:induction false} HandlerCallsWithinAllowed(
    cfg: Config, name: string -> string, events: seq<Event>, i: nat, n: nat, p: Policy, req: Request)
    requires i <= n <= |events| && Injective(name) && ColonFree(cfg, events) && !cfg.failOpen
    requires LimitFor(cfg, req) == Some(p) && p.Valid()
    ensures var times := ScriptTimes(events, n, req.route, req.clientIp);
            var first := |ScriptTimes(events, i, req.route, req.clientIp)|;
            first <= |times| &&
            HandlerCalls(cfg, name, events, i, n, req.route, req.clientIp) <= AllowedIn(p, MISSING, times, first, |times|)
    decreases n
  {
    if i == n {
    } else {
      HandlerCallsWithinAllowed(cfg, name, events, i, n - 1, p, req);
      var times := ScriptTimes(events, n - 1, req.route, req.clientIp);
      var first := |ScriptTimes(events, i, req.route, req.clientIp)|;
      if Hits(events[n - 1], req.route, req.clientIp) {
        OwnCallIsAllowed(cfg, name, events, n - 1, p, times, first);
      }
    }
  }

  /**
   When not failing open, the handler calls of one client on one limited route in any stretch of
   traffic stay within the burst plus what the rate earns over the script's forward clock steps,
   through lost commands, lost replies, other clients and a clock that may step back.
   */
  lemma MiddlewareWindowBound(
    cfg: Config, name: string -> string, events: seq<Event>, i: nat, n: nat, p: Policy, req: Request)
    requires i <= n <= |events| && Injective(name) && ColonFree(cfg, events) && !cfg.failOpen
    requires LimitFor(cfg, req) == Some(p) && p.Valid()
    ensures var times := ScriptTimes(events, n, req.route, req.clientIp);
            var first := |ScriptTimes(events, i, req.route, req.clientIp)|;
            var calls := HandlerCalls(cfg, name, events, i, n, req.route, req.clientIp);
            && first <= |times|
            && (first == |times| ==> calls == 0)
            && (first < |times| ==> calls as real <= Budget(p, ForwardTime(times, first, |times| - 1)))
  {
    HandlerCallsWithinAllowed(cfg, name, events, i, n, p, req);
    var times := ScriptTimes(events, n, req.route, req.clientIp);
    var first := |ScriptTimes(events, i, req.route, req.clientIp)|;
    if first < |times| {
      WindowBound(p, MISSING, times, first, |times| - 1);
    }
  }

  ghost predicate ClockMonotone(events: seq<Event>) {
    forall i, j :: 0 <= i <= j < |events| ==> events[i].nowMs <= events[j].nowMs
  }

  ghost predicate AllAtMost(times: seq<int>, t: int) {
    forall k :: 0 <= k < |times| ==> times[k] <= t
  }

  lemma AtMostGrows(times: seq<int>, t: int, later: int)
    requires AllAtMost(times, t) && t <= later
    ensures AllAtMost(times, later) && AllAtMost(times + [later], later)
  {
  }

  lemma MonotoneGrows(times: seq<int>, t: int)
    requires Monotone(times) && AllAtMost(times, t)
    ensures Monotone(times + [t])
  {
  }

  lemma {:induction false} ScriptTimesBefore(events: seq<Event>, n: nat, route: string, client: string)
    requires 0 < n <= |events| && ClockMonotone(events)
    ensures AllAtMost(ScriptTimes(events, n, route, client), events[n - 1].nowMs)
  {
    if n == 1 {
      assert ScriptTimes(events, 0, route, client) == [];
    } else {
      ScriptTimesBefore(events, n - 1, route, client);
      AtMostGrows(ScriptTimes(events, n - 1, route, client), events[n - 2].nowMs, events[n - 1].nowMs);
    }
  }

  lemma {:induction false} ScriptTimesMonotone(events: seq<Event>, n: nat, route: string, client: string)
    requires n <= |events| && ClockMonotone(events)
    ensures Monotone(ScriptTimes(events, n, route, client))
  {
    if n == 0 {
    } else {
      var before := ScriptTimes(events, n - 1, route, client);
      ScriptTimesMonotone(events, n - 1, route, client);
      if n > 1 {
        ScriptTimesBefore(events, n - 1, route, client);
        AtMostGrows(before, events[n - 2].nowMs, events[n - 1].nowMs);
      }
      MonotoneGrows(before, events[n - 1].nowMs);
    }
  }

  lemma {:induction false} ScriptTimesSince(events: seq<Event>, i: nat, n: nat, route: string, client: string)
    requires i <= n <= |events| && ClockMonotone(events)
    ensures var times, first := ScriptTimes(events, n, route, client), |ScriptTimes(events, i, route, client)|;
            first <= |times| && forall k :: first <= k < |times| ==> events[i].nowMs <= times[k]
    decreases n
  {
    if i == n {
    } else {
      ScriptTimesSince(events, i, n - 1, route, client);
      assert events[i].nowMs <= events[n - 1].nowMs;
    }
  }

  /** A client's script runs in a stretch of traffic span no more time than the stretch. */
  lemma SpanWithinStretch(events: seq<Event>, i: nat, n: nat, route: string, client: string)
    requires i < n <= |events| && ClockMonotone(events)
    ensures var times, first := ScriptTimes(events, n, route, client), |ScriptTimes(events, i, route, client)|;
            first < |times| ==> ForwardTime(times, first, |times| - 1) <= events[n - 1].nowMs - events[i].nowMs
  {
    var times, first := ScriptTimes(events, n, route, client), |ScriptTimes(events, i, route, client)|;
    if first < |times| {
      ScriptTimesMonotone(events, n, route, client);
      ScriptTimesSince(events, i, n, route, client);
      ScriptTimesBefore(events, n, route, client);
      ForwardTimeOfMonotone(times, first, |times| - 1);
    }
  }

  lemma MoreTimeMoreBudget(p: Policy, a: int, b: int)
    requires p.Valid() && a <= b
    ensures Budget(p, a) <= Budget(p, b)
  {
    RefillAdds(p, a, b - a);
    RefillNonNegative(p, b - a);
  }

  /** With a clock that never steps back: burst plus rate times the time the stretch lasted. */
  lemma MiddlewareElapsedBound(
    cfg: Config, name: string -> string, events: seq<Event>, i: nat, n: nat, p: Policy, req: Request)
    requires i < n <= |events| && Injective(name) && ColonFree(cfg, events) && !cfg.failOpen
    requires LimitFor(cfg, req) == Some(p) && p.Valid() && ClockMonotone(events)
    ensures HandlerCalls(cfg, name, events, i, n, req.route, req.clientIp) as real
            <= Budget(p, events[n - 1].nowMs - events[i].nowMs)
  {
    MiddlewareWindowBound(cfg, name, events, i, n, p, req);
    var times := ScriptTimes(events, n, req.route, req.clientIp);
    var first := |ScriptTimes(events, i, req.route, req.clientIp)|;
    if first < |times| {
      SpanWithinStretch(events, i, n, req.route, req.clientIp);
      MoreTimeMoreBudget(p, ForwardTime(times, first, |times| - 1), events[n - 1].nowMs - events[i].nowMs);
    } else {
      assert events[i].nowMs <= events[n - 1].nowMs;
      MoreTimeMoreBudget(p, 0, events[n - 1].nowMs - events[i].nowMs);
    }
  }
}
