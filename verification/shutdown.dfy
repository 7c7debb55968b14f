/** The cleanup stack run against the two audit queues and the database pool they write to. */
module Shutdown {
  import opened Wrappers
  import opened ServerLifecycle
  import A = AuditQueue
  import I = AuditInvariant

  /** An audit repository exists from its construction on; a server that failed early has none. */
  datatype System = System(
    poolOpen: bool,
    requestAudit: Option<A.State>,
    outboundAudit: Option<A.State>,
    todo: seq<Cleanup>)

  /** A step of one of the two audit queues, or the completion of the cleanup that is running. */
  datatype Step = RequestAudit(a: A.Action) | OutboundAudit(a: A.Action) | FinishCleanup

  /** Close has returned; only the cleanup stack calls it. */
  ghost predicate CloseReturned(audit: Option<A.State>) {
    audit.Some? ==> exists c :: A.CloserAt(audit.value.control, c, A.Returned)
  }

  ghost predicate Enabled(s: System, step: Step) {
    match step
    case RequestAudit(a) => s.requestAudit.Some? && A.Enabled(s.requestAudit.value, a)
    case OutboundAudit(a) => s.outboundAudit.Some? && A.Enabled(s.outboundAudit.value, a)
    case FinishCleanup =>
      && s.todo != []
      && (s.todo[0].CloseRequestAudit? ==> CloseReturned(s.requestAudit))
      && (s.todo[0].CloseOutboundAudit? ==> CloseReturned(s.outboundAudit))
  }

  ghost function Apply(s: System, step: Step): System
    requires Enabled(s, step)
  {
    match step
    case RequestAudit(a) => s.(requestAudit := Some(A.Apply(s.requestAudit.value, a)))
    case OutboundAudit(a) => s.(outboundAudit := Some(A.Apply(s.outboundAudit.value, a)))
    case FinishCleanup => s.(todo := s.todo[1..], poolOpen := s.poolOpen && s.todo[0] != ClosePool)
  }

  ghost predicate IsRun(s: System, run: seq<Step>)
    decreases |run|
  {
    run == [] || (Enabled(s, run[0]) && IsRun(Apply(s, run[0]), run[1..]))
  }

  ghost function Final(s: System, run: seq<Step>): System
    requires IsRun(s, run)
    decreases |run|
  {
    if run == [] then s else Final(Apply(s, run[0]), run[1..])
  }

  ghost predicate Idle(audit: Option<A.State>) {
    audit.Some? ==> audit.value.worker.Stopped?
  }

  ghost predicate AuditInv(audit: Option<A.State>) {
    audit.Some? ==> I.Inv(audit.value)
  }

  ghost predicate Inv(s: System) {
    && AuditInv(s.requestAudit) && AuditInv(s.outboundAudit)
    && PoolAfterAudits(s.todo)
    && (CloseRequestAudit !in s.todo ==> Idle(s.requestAudit))
    && (CloseOutboundAudit !in s.todo ==> Idle(s.outboundAudit))
    && (!s.poolOpen ==> CloseRequestAudit !in s.todo && CloseOutboundAudit !in s.todo)
  }

  /** The moment the stack starts running: the audit queues that were created, in any reachable state, and every cleanup to do. */
  ghost predicate ShutdownBegins(s: System, up: Startup) {
    && s.todo == Reversed(Registered(up)) && s.poolOpen
    && AuditInv(s.requestAudit) && AuditInv(s.outboundAudit)
    && (s.requestAudit.Some? <==> Exists(up, RequestAuditQueue))
    && (s.outboundAudit.Some? <==> Exists(up, OutboundAuditQueue))
  }

  lemma BeginEstablishesInv(s: System, up: Startup)
    requires ShutdownBegins(s, up)
    ensures Inv(s)
  {
    PoolClosesAfterAudits(up);
    RegisteredIsWhatExists(up, RequestAuditQueue);
    RegisteredIsWhatExists(up, OutboundAuditQueue);
  }

  lemma IdleStaysIdle(s: A.State, a: A.Action)
    requires A.Enabled(s, a) && s.worker.Stopped?
    ensures A.Apply(s, a).worker.Stopped?
  {
  }

  lemma ReturnedMeansIdle(audit: Option<A.State>)
    requires AuditInv(audit) && CloseReturned(audit)
    ensures Idle(audit)
  {
  }

  lemma StepKeepsInv(s: System, step: Step)
    requires Inv(s) && Enabled(s, step)
    ensures Inv(Apply(s, step))
  {
    match step
    case RequestAudit(a) =>
      I.StepKeepsInv(s.requestAudit.value, a);
      if s.requestAudit.value.worker.Stopped? {
        IdleStaysIdle(s.requestAudit.value, a);
      }
    case OutboundAudit(a) =>
      I.StepKeepsInv(s.outboundAudit.value, a);
      if s.outboundAudit.value.worker.Stopped? {
        IdleStaysIdle(s.outboundAudit.value, a);
      }
    case FinishCleanup =>
      var head, rest := s.todo[0], s.todo[1..];
      assert s.todo == [head] + rest;
      if head.CloseRequestAudit? {
        ReturnedMeansIdle(s.requestAudit);
      } else if head.CloseOutboundAudit? {
        ReturnedMeansIdle(s.outboundAudit);
      }
  }

  lemma {:induction false} RunKeepsInv(s: System, run: seq<Step>)
    requires Inv(s) && IsRun(s, run)
    ensures Inv(Final(s, run))
    decreases |run|
  {
    if run == [] {
    } else {
      StepKeepsInv(s, run[0]);
      RunKeepsInv(Apply(s, run[0]), run[1..]);
    }
  }

  /** The worker calls params.Store, which uses the pool. */
  predicate StartsWrite(s: A.State, a: A.Action) {
    a.OfWorker? && s.worker.Holding?
  }

  ghost predicate StartsAuditWrite(s: System, step: Step)
    requires Enabled(s, step)
  {
    || (step.RequestAudit? && StartsWrite(s.requestAudit.value, step.a))
    || (step.OutboundAudit? && StartsWrite(s.outboundAudit.value, step.a))
  }

  ghost predicate WriteInProgress(audit: Option<A.State>) {
    audit.Some? && audit.value.worker.Writing?
  }

  /** The pool's cleanup is the one that is running, or it has run. */
  predicate PoolGoing(s: System) {
    !s.poolOpen || (s.todo != [] && s.todo[0] == ClosePool)
  }

  lemma PoolGoingMeansIdle(s: System)
    requires Inv(s) && PoolGoing(s)
    ensures Idle(s.requestAudit) && Idle(s.outboundAudit)
  {
    if s.poolOpen {
      assert forall j :: 0 < j < |s.todo| ==> s.todo[j] != CloseRequestAudit && s.todo[j] != CloseOutboundAudit;
    }
  }

  /**
   Over every interleaving of late Store calls, both workers and the cleanups, no audit write starts or is
   under way from the moment the database pool begins to close.
   */
  lemma NoAuditWriteAfterPoolClosed(s: System, up: Startup, run: seq<Step>, step: Step)
    requires ShutdownBegins(s, up) && IsRun(s, run) && Enabled(Final(s, run), step)
    ensures StartsAuditWrite(Final(s, run), step) ==> !PoolGoing(Final(s, run))
    ensures WriteInProgress(Final(s, run).requestAudit) || WriteInProgress(Final(s, run).outboundAudit)
            ==> !PoolGoing(Final(s, run))
  {
    BeginEstablishesInv(s, up);
    RunKeepsInv(s, run);
    if PoolGoing(Final(s, run)) {
      PoolGoingMeansIdle(Final(s, run));
    }
  }
}
