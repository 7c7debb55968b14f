/** What every step of the audit repository keeps. */
module AuditInvariant {
  import opened AuditQueue

  // ---- the lock, the once and the flags ----

  /** Inside closeOnce. */
  predicate Active(c: Closer) {
    !c.Calling? && !c.Returned?
  }

  /** The closer is past `closed = true`, past `close(queue)`, past `close(stopWorkerCh)`. */
  predicate PastFlag(c: Closer) {
    c.FlagSet? || PastChannel(c)
  }

  predicate PastChannel(c: Closer) {
    c.ChannelShut? || c.Waiting? || c.TimedOut? || c.StopSent?
  }

  ghost predicate OnceInv(k: Control) {
    && (forall c :: c in k.closers && Active(k.closers[c]) ==> k.once == Running(c))
    && (forall c :: c in k.closers && k.closers[c].Returned? ==> k.once.Finished?)
    && match k.once
       case NotRun => !k.closed && !k.channelClosed && !k.stopped
       case Running(c) =>
         && c in k.closers && Active(k.closers[c])
         && k.closed == PastFlag(k.closers[c])
         && k.channelClosed == PastChannel(k.closers[c])
         && k.stopped == k.closers[c].StopSent?
       case Finished => k.closed && k.channelClosed
  }

  ghost predicate LockInv(s: State) {
    && (NoReader(s) || NoWriter(s.control))
    && (forall id :: id in s.producers && s.producers[id].Sending? ==> !s.control.closed)
  }

  // ---- the records ----

  function InFlight(w: Worker): seq<nat> {
    if w.Holding? || w.Writing? then [w.job] else []
  }

  predicate SentPhase(p: Producer) {
    p.SentUncounted? || p.SentCounted? || p.SentDone?
  }

  ghost predicate Distinct(records: seq<nat>) {
    forall i, j :: 0 <= i < j < |records| ==> records[i] != records[j]
  }

  ghost predicate DataInv(s: State) {
    var h := s.history;
    && h.accepted == h.written + InFlight(s.worker) + h.discarded + s.queue
    && Distinct(h.accepted)
    && |s.queue| <= s.capacity
    && (forall id :: id in h.succeeded ==> id in h.written)
    && s.fault.NoFault?
  }

  /** The accepted records are those whose Store call got past the send. */
  ghost predicate SentInv(s: State) {
    forall id :: id in s.history.accepted <==> id in s.producers && SentPhase(s.producers[id])
  }

  ghost predicate WorkerInv(s: State) {
    var h := s.history;
    && (s.worker.Wrote? ==> h.written != [] && h.written[|h.written| - 1] == s.worker.job)
    && (s.worker.Discarding? ==> h.discarded != [] && h.discarded[|h.discarded| - 1] == s.worker.job)
    && (s.worker.Draining? || s.worker.Discarding? ==> s.control.stopped)
    && (h.discarded != [] ==> s.control.stopped)
    && (h.discarded != [] ==> s.worker.Draining? || s.worker.Discarding? || s.worker.Stopped?)
    && (s.worker.Stopped? ==> s.control.channelClosed && s.queue == [])
    && (s.control.once.Finished? ==> s.worker.Stopped?)
    && h.lateWrites <= (if s.control.stopped then 1 else 0)
    && (s.worker.Receiving? || s.worker.Holding? || s.worker.Writing? ==> h.lateWrites == 0)
  }

  // ---- the counters ----

  predicate Written(s: State, id: nat) {
    id in s.history.written && s.worker != Wrote(id)
  }

  predicate Discarded(s: State, id: nat) {
    id in s.history.discarded && s.worker != Discarding(id)
  }

  /** Whether outcome `o` of record `id` has been counted by now. */
  predicate Due(s: State, id: nat, o: Outcome) {
    match o
    case Enqueued => At(s, id, SentCounted) || At(s, id, SentDone)
    case Stored => Written(s, id) && id in s.history.succeeded
    case WriteError => Written(s, id) && id !in s.history.succeeded
    case DroppedQueueFull => At(s, id, FullDone)
    case DroppedShutdown => At(s, id, ShutDone) || Discarded(s, id)
  }

  ghost predicate CountInv(s: State) {
    forall id, o :: s.counted[(id, o)] == if Due(s, id, o) then 1 else 0
  }

  ghost predicate Inv(s: State) {
    OnceInv(s.control) && LockInv(s) && DataInv(s) && SentInv(s) && WorkerInv(s) && CountInv(s)
  }

  // ---- preservation ----

  lemma InitControl(capacity: nat)
    ensures OnceInv(Init(capacity).control) && LockInv(Init(capacity))
  {
  }

  lemma InitData(capacity: nat)
    ensures DataInv(Init(capacity)) && SentInv(Init(capacity))
  {
  }

  lemma InitWorker(capacity: nat)
    ensures WorkerInv(Init(capacity))
  {
  }

  lemma InitCounts(capacity: nat)
    ensures CountInv(Init(capacity))
  {
  }

  lemma InitInv(capacity: nat)
    ensures Inv(Init(capacity))
  {
    InitControl(capacity);
    InitData(capacity);
    InitWorker(capacity);
    InitCounts(capacity);
  }

  lemma OnceKept(k: Control, c: nat, step: CloserStep, s: State)
    requires OnceInv(k) && s.control == k && CloserEnabled(s, c, step)
    ensures OnceInv(ControlAfter(k, c, step))
  {
  }

  lemma NoPanicOnClose(s: State, c: nat, step: CloserStep)
    requires OnceInv(s.control) && CloserEnabled(s, c, step)
    ensures CloserApply(s, c, step) == s.(control := ControlAfter(s.control, c, step))
  {
  }

  lemma LockKeptByProducer(s: State, id: nat, step: ProducerStep)
    requires LockInv(s) && ProducerEnabled(s, id, step)
    ensures LockInv(ProducerApply(s, id, step))
  {
  }

  lemma LockKeptByCloser(s: State, c: nat, step: CloserStep)
    requires LockInv(s) && OnceInv(s.control) && CloserEnabled(s, c, step)
    ensures LockInv(CloserApply(s, c, step))
  {
  }

  lemma WorkerKeptByProducer(s: State, id: nat, step: ProducerStep)
    requires WorkerInv(s) && LockInv(s) && OnceInv(s.control) && ProducerEnabled(s, id, step)
    ensures WorkerInv(ProducerApply(s, id, step))
  {
  }

  lemma WorkerKeptByCloser(s: State, c: nat, step: CloserStep)
    requires WorkerInv(s) && OnceInv(s.control) && CloserEnabled(s, c, step)
    ensures WorkerInv(CloserApply(s, c, step))
  {
  }

  lemma WorkerKeptByWorker(s: State, ok: bool)
    requires WorkerInv(s) && OnceInv(s.control) && WorkerEnabled(s)
    ensures WorkerInv(WorkerApply(s, ok))
  {
  }

  lemma DataKeptByProducer(s: State, id: nat, step: ProducerStep)
    requires DataInv(s) && SentInv(s) && LockInv(s) && OnceInv(s.control) && ProducerEnabled(s, id, step)
    ensures DataInv(ProducerApply(s, id, step))
  {
  }

  lemma DataKeptByWorker(s: State, ok: bool)
    requires DataInv(s) && WorkerInv(s) && OnceInv(s.control) && WorkerEnabled(s)
    ensures DataInv(WorkerApply(s, ok))
  {
  }

  lemma SentKeptByProducer(s: State, id: nat, step: ProducerStep)
    requires SentInv(s) && ProducerEnabled(s, id, step)
    ensures SentInv(ProducerApply(s, id, step))
  {
  }

  /** A step that counts nothing and makes nothing due. */
  lemma CountKeptSilently(s: State, t: State)
    requires CountInv(s) && t.counted == s.counted
    requires forall id, o :: Due(t, id, o) == Due(s, id, o)
    ensures CountInv(t)
  {
  }

  /** A step that counts the one outcome it makes due. */
  lemma CountKeptByCounting(s: State, t: State, id: nat, o: Outcome)
    requires CountInv(s) && t.counted == s.counted + multiset{(id, o)}
    requires !Due(s, id, o) && Due(t, id, o)
    requires forall id': nat, o' :: (id', o') != (id, o) ==> Due(t, id', o') == Due(s, id', o')
    ensures CountInv(t)
  {
    forall id': nat, o'
      ensures t.counted[(id', o')] == if Due(t, id', o') then 1 else 0
    {
      assert t.counted[(id', o')] == s.counted[(id', o')] + (if (id', o') == (id, o) then 1 else 0);
    }
  }

  /** The phases in which a Store call has counted its own outcome. */
  predicate SameCounts(p: Producer, q: Producer) {
    && (p.SentCounted? || p.SentDone? <==> q.SentCounted? || q.SentDone?)
    && (p.FullDone? <==> q.FullDone?)
    && (p.ShutDone? <==> q.ShutDone?)
  }

  lemma CountKeptByMove(s: State, t: State, id: nat, p: Producer)
    requires CountInv(s) && t.counted == s.counted && t.producers == s.producers[id := p]
    requires t.worker == s.worker && t.history.written == s.history.written
    requires t.history.succeeded == s.history.succeeded && t.history.discarded == s.history.discarded
    requires SameCounts(if id in s.producers then s.producers[id] else Arrived, p)
    ensures CountInv(t)
  {
    CountKeptSilently(s, t);
  }

  lemma CountKeptByProducer(s: State, id: nat, step: ProducerStep)
    requires CountInv(s) && DataInv(s) && SentInv(s) && ProducerEnabled(s, id, step)
    ensures CountInv(ProducerApply(s, id, step))
  {
    var t := ProducerApply(s, id, step);
    match step
    case Arrive => CountKeptByMove(s, t, id, Arrived);
    case AcquireRead => CountKeptByMove(s, t, id, Locked);
    case CheckClosed => CountKeptByMove(s, t, id, t.producers[id]);
    case TrySend => CountKeptByMove(s, t.(producers := s.producers[id := t.producers[id]]), id, t.producers[id]);
    case ReleaseRead => CountKeptByMove(s, t, id, t.producers[id]);
    case CountEnqueued => CountKeptByCounting(s, t, id, Enqueued);
    case CountDrop => CountKeptByDrop(s, id);
  }

  lemma CountKeptByDrop(s: State, id: nat)
    requires CountInv(s) && DataInv(s) && SentInv(s) && ProducerEnabled(s, id, CountDrop)
    ensures CountInv(ProducerApply(s, id, CountDrop))
  {
    var t := ProducerApply(s, id, CountDrop);
    HistoryIsAccepted(s, id);
    if s.producers[id].FullUncounted? {
      CountKeptByCounting(s, t, id, DroppedQueueFull);
    } else {
      CountKeptByCounting(s, t, id, DroppedShutdown);
    }
  }

  lemma HistoryIsAccepted(s: State, id: nat)
    requires DataInv(s)
    ensures id in s.history.written || id in s.history.discarded ==> id in s.history.accepted
  {
  }

  lemma DistinctSplits(a: seq<nat>, b: seq<nat>)
    requires Distinct(a + b)
    ensures forall x :: x in a ==> x !in b
  {
    forall i, j | 0 <= i < |a| && 0 <= j < |b|
      ensures a[i] != b[j]
    {
      assert (a + b)[i] != (a + b)[|a| + j];
    }
  }

  /** The record the worker takes next has not been written or discarded before. */
  lemma NextJobIsNew(s: State, job: nat)
    requires DataInv(s)
    requires InFlight(s.worker) == [job] || (s.queue != [] && job == s.queue[0])
    ensures job !in s.history.written && job !in s.history.discarded
  {
    var h, flying := s.history, InFlight(s.worker);
    assert h.accepted == h.written + (flying + h.discarded + s.queue);
    DistinctSplits(h.written, flying + h.discarded + s.queue);
    if flying == [job] {
      assert h.accepted == (h.written + flying) + (h.discarded + s.queue);
      assert (h.written + flying)[|h.written|] == job;
      DistinctSplits(h.written + flying, h.discarded + s.queue);
      assert job in h.discarded ==> job in h.discarded + s.queue;
    } else {
      DistinctSplits(h.written + flying + h.discarded, s.queue);
    }
  }

  lemma CountKeptByWorker(s: State, ok: bool)
    requires CountInv(s) && DataInv(s) && SentInv(s) && WorkerInv(s) && WorkerEnabled(s)
    ensures CountInv(WorkerApply(s, ok))
  {
    if s.worker.Wrote? {
      CountKeptByResult(s, ok);
    } else if s.worker.Discarding? {
      CountKeptByDiscard(s, ok);
    } else if s.worker.Writing? {
      CountKeptByWrite(s, ok);
    } else if s.worker.Draining? {
      CountKeptByPoll(s, ok);
    } else {
      CountKeptSilently(s, WorkerApply(s, ok));
    }
  }

  lemma CountKeptByDiscard(s: State, ok: bool)
    requires CountInv(s) && DataInv(s) && SentInv(s) && WorkerInv(s) && s.worker.Discarding?
    ensures CountInv(WorkerApply(s, ok))
  {
    HistoryIsAccepted(s, s.worker.job);
    CountKeptByCounting(s, WorkerApply(s, ok), s.worker.job, DroppedShutdown);
  }

  lemma CountKeptByWrite(s: State, ok: bool)
    requires CountInv(s) && DataInv(s) && s.worker.Writing?
    ensures CountInv(WorkerApply(s, ok))
  {
    NextJobIsNew(s, s.worker.job);
    CountKeptSilently(s, WorkerApply(s, ok));
  }

  lemma CountKeptByPoll(s: State, ok: bool)
    requires CountInv(s) && DataInv(s) && s.worker.Draining?
    ensures CountInv(WorkerApply(s, ok))
  {
    if s.queue != [] {
      NextJobIsNew(s, s.queue[0]);
    }
    CountKeptSilently(s, WorkerApply(s, ok));
  }

  lemma CountKeptByResult(s: State, ok: bool)
    requires CountInv(s) && WorkerInv(s) && s.worker.Wrote?
    ensures CountInv(WorkerApply(s, ok))
  {
    var job := s.worker.job;
    CountKeptByCounting(s, WorkerApply(s, ok), job, if job in s.history.succeeded then Stored else WriteError);
  }

  // ---- whole runs ----

  lemma StepKeepsInv(s: State, a: Action)
    requires Inv(s) && Enabled(s, a)
    ensures Inv(Apply(s, a))
  {
    match a
    case OfProducer(id, step) =>
      LockKeptByProducer(s, id, step);
      WorkerKeptByProducer(s, id, step);
      DataKeptByProducer(s, id, step);
      SentKeptByProducer(s, id, step);
      CountKeptByProducer(s, id, step);
      ProducerKeepsControl(s, id, step);
    case OfCloser(c, step) =>
      NoPanicOnClose(s, c, step);
      OnceKept(s.control, c, step, s);
      LockKeptByCloser(s, c, step);
      WorkerKeptByCloser(s, c, step);
      assert CountInv(s.(control := ControlAfter(s.control, c, step))) by {
        CountKeptSilently(s, s.(control := ControlAfter(s.control, c, step)));
      }
    case OfWorker(ok) =>
      WorkerKeptByWorker(s, ok);
      DataKeptByWorker(s, ok);
      CountKeptByWorker(s, ok);
      WorkerKeepsControl(s, ok);
  }

  lemma ProducerKeepsControl(s: State, id: nat, step: ProducerStep)
    requires ProducerEnabled(s, id, step)
    ensures ProducerApply(s, id, step).control == s.control
  {
  }

  lemma WorkerKeepsControl(s: State, ok: bool)
    requires WorkerEnabled(s)
    ensures WorkerApply(s, ok).control == s.control && WorkerApply(s, ok).producers == s.producers
    ensures WorkerApply(s, ok).history.accepted == s.history.accepted
  {
  }

  lemma {:induction false} RunKeepsInv(s: State, run: seq<Action>)
    requires Inv(s) && IsRun(s, run)
    ensures Inv(Final(s, run))
    decreases |run|
  {
    if run == [] {
    } else {
      StepKeepsInv(s, run[0]);
      RunKeepsInv(Apply(s, run[0]), run[1..]);
    }
  }
}
