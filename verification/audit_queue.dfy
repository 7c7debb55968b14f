/**
 The asynchronous audit repository as a system of interleaved steps: any number of Store calls and
 Close calls, and one worker, around a bounded channel, a read-write lock, a closed flag, a
 sync.Once and a stop channel. Each Store call carries one record and both go by the same number.
 */
module AuditQueue {

  /** Where a Store call is. Sent, Full and Shut are the three ways the call can go. */
  datatype Producer =
    | Arrived          // before RLock
    | Locked           // holds the read lock, has not looked at `closed`
    | Sending          // holds the read lock, saw `closed` false, before the select
    | SentUncounted    // holds the read lock, the record is in the channel
    | SentCounted      // holds the read lock, "enqueued" is counted
    | SentDone
    | FullLocked       // holds the read lock, took the default branch
    | FullUncounted
    | FullDone
    | ShutUncounted    // saw `closed` true, lock released
    | ShutDone

  /** Where a Close call is. */
  datatype Closer =
    | Calling          // before closeOnce
    | WantLock         // inside closeOnce, before Lock
    | Announced        // inside Lock: new readers wait for this writer, it waits for the old ones
    | HoldsLock        // holds the write lock
    | FlagSet          // holds the write lock, `closed` is set
    | ChannelShut      // holds the write lock, the channel is closed
    | Waiting          // waits for the worker or the timer
    | TimedOut         // the timer won
    | StopSent         // closed the stop channel, waits for the worker
    | Returned

  datatype Worker =
    | Checking         // about to look at the stop channel
    | Receiving        // about to receive from the channel
    | Holding(job: nat)
    | Writing(job: nat)
    | Wrote(job: nat)  // params.Store has returned, nothing counted yet
    | Draining         // saw the stop signal, about to poll the channel
    | Discarding(job: nat)
    | Stopped

  datatype Once = NotRun | Running(closer: nat) | Finished

  datatype Outcome = Enqueued | Stored | WriteError | DroppedQueueFull | DroppedShutdown

  /** What Close works with. */
  datatype Control = Control(
    closed: bool,
    channelClosed: bool,
    stopped: bool,
    once: Once,
    closers: map<nat, Closer>)

  /** What has happened to the records: history variables, in no way visible to the program. */
  datatype History = History(
    accepted: seq<nat>,
    written: seq<nat>,
    succeeded: set<nat>,
    discarded: seq<nat>,
    lateWrites: nat)

  /** A send on or a second close of the closed channel; a drain loop that gave up on an open channel. */
  datatype Fault = NoFault | Panic | DrainGaveUp

  datatype State = State(
    capacity: nat,
    queue: seq<nat>,
    producers: map<nat, Producer>,
    control: Control,
    worker: Worker,
    counted: multiset<(nat, Outcome)>,
    history: History,
    fault: Fault)

  datatype ProducerStep = Arrive | AcquireRead | CheckClosed | TrySend | CountEnqueued | ReleaseRead | CountDrop

  datatype CloserStep =
    | CallClose | EnterOnce | AnnounceWrite | AcquireWrite | SetFlag | CloseChannel | ReleaseWrite
    | TimerFires | SignalStop | SeeWorkerDone

  /** One atomic step: of Store call `id`, of Close call `c`, or of the worker (`ok`: a write succeeds). */
  datatype Action = OfProducer(id: nat, pstep: ProducerStep) | OfCloser(c: nat, cstep: CloserStep) | OfWorker(ok: bool)

  function Init(capacity: nat): State {
    State(capacity, [], map[], Control(false, false, false, NotRun, map[]), Checking, multiset{},
          History([], [], {}, [], 0), NoFault)
  }

  predicate HoldsRead(p: Producer) {
    p.Locked? || p.Sending? || p.SentUncounted? || p.SentCounted? || p.FullLocked?
  }

  predicate HoldsWrite(c: Closer) {
    c.HoldsLock? || c.FlagSet? || c.ChannelShut?
  }

  /** Inside Lock or past it: keeps new readers and other writers out. */
  predicate WritePending(c: Closer) {
    c.Announced? || HoldsWrite(c)
  }

  predicate NoReader(s: State) {
    forall id :: id in s.producers ==> !HoldsRead(s.producers[id])
  }

  predicate NoWriter(k: Control) {
    forall c :: c in k.closers ==> !HoldsWrite(k.closers[c])
  }

  predicate NoWritePending(k: Control) {
    forall c :: c in k.closers ==> !WritePending(k.closers[c])
  }

  predicate At(s: State, id: nat, p: Producer) {
    id in s.producers && s.producers[id] == p
  }

  predicate CloserAt(k: Control, c: nat, p: Closer) {
    c in k.closers && k.closers[c] == p
  }

  // ---- when a step can be taken; one that is not enabled blocks, as a lock or a channel does ----

  predicate ProducerEnabled(s: State, id: nat, step: ProducerStep) {
    match step
    case Arrive => id !in s.producers
    case AcquireRead => At(s, id, Arrived) && NoWritePending(s.control)
    case CheckClosed => At(s, id, Locked)
    case TrySend => At(s, id, Sending)
    case CountEnqueued => At(s, id, SentUncounted)
    case ReleaseRead => At(s, id, SentCounted) || At(s, id, FullLocked)
    case CountDrop => At(s, id, FullUncounted) || At(s, id, ShutUncounted)
  }

  predicate CloserEnabled(s: State, c: nat, step: CloserStep) {
    var k := s.control;
    match step
    case CallClose => c !in k.closers
    case EnterOnce => CloserAt(k, c, Calling) && !k.once.Running?
    case AnnounceWrite => CloserAt(k, c, WantLock) && NoWritePending(k)
    case AcquireWrite => CloserAt(k, c, Announced) && NoReader(s)
    case SetFlag => CloserAt(k, c, HoldsLock)
    case CloseChannel => CloserAt(k, c, FlagSet)
    case ReleaseWrite => CloserAt(k, c, ChannelShut)
    case TimerFires => CloserAt(k, c, Waiting)
    case SignalStop => CloserAt(k, c, TimedOut)
    case SeeWorkerDone => (CloserAt(k, c, Waiting) || CloserAt(k, c, StopSent)) && s.worker.Stopped?
  }

  predicate WorkerEnabled(s: State) {
    !s.worker.Stopped? && (s.worker.Receiving? ==> s.queue != [] || s.control.channelClosed)
  }

  predicate Enabled(s: State, a: Action) {
    match a
    case OfProducer(id, step) => ProducerEnabled(s, id, step)
    case OfCloser(c, step) => CloserEnabled(s, c, step)
    case OfWorker(_) => WorkerEnabled(s)
  }

  // ---- what a step does ----

  function MoveProducer(s: State, id: nat, p: Producer): State {
    s.(producers := s.producers[id := p])
  }

  function Count(s: State, id: nat, o: Outcome): State {
    s.(counted := s.counted + multiset{(id, o)})
  }

  function Accept(h: History, id: nat): History {
    h.(accepted := h.accepted + [id])
  }

  function Send(s: State, id: nat): State {
    if s.control.channelClosed then s.(fault := Panic)
    else if |s.queue| < s.capacity then
      MoveProducer(s, id, SentUncounted).(queue := s.queue + [id], history := Accept(s.history, id))
    else MoveProducer(s, id, FullLocked)
  }

  function ProducerApply(s: State, id: nat, step: ProducerStep): State
    requires ProducerEnabled(s, id, step)
  {
    match step
    case Arrive => MoveProducer(s, id, Arrived)
    case AcquireRead => MoveProducer(s, id, Locked)
    case CheckClosed => MoveProducer(s, id, if s.control.closed then ShutUncounted else Sending)
    case TrySend => Send(s, id)
    case CountEnqueued => Count(MoveProducer(s, id, SentCounted), id, Enqueued)
    case ReleaseRead => MoveProducer(s, id, if s.producers[id].SentCounted? then SentDone else FullUncounted)
    case CountDrop =>
      if s.producers[id].FullUncounted? then Count(MoveProducer(s, id, FullDone), id, DroppedQueueFull)
      else Count(MoveProducer(s, id, ShutDone), id, DroppedShutdown)
  }

  function MoveCloser(k: Control, c: nat, p: Closer): Control {
    k.(closers := k.closers[c := p])
  }

  /** The flags, the once and the closers after a step of Close call `c`. */
  function ControlAfter(k: Control, c: nat, step: CloserStep): Control {
    match step
    case CallClose => MoveCloser(k, c, Calling)
    case EnterOnce =>
      if k.once.Finished? then MoveCloser(k, c, Returned)
      else MoveCloser(k, c, WantLock).(once := Running(c))
    case AnnounceWrite => MoveCloser(k, c, Announced)
    case AcquireWrite => MoveCloser(k, c, HoldsLock)
    case SetFlag =>
      if k.closed then MoveCloser(k, c, ChannelShut) else MoveCloser(k, c, FlagSet).(closed := true)
    case CloseChannel => MoveCloser(k, c, ChannelShut).(channelClosed := true)
    case ReleaseWrite => MoveCloser(k, c, Waiting)
    case TimerFires => MoveCloser(k, c, TimedOut)
    case SignalStop => MoveCloser(k, c, StopSent).(stopped := true)
    case SeeWorkerDone => MoveCloser(k, c, Returned).(once := Finished)
  }

  function CloserApply(s: State, c: nat, step: CloserStep): State
    requires CloserEnabled(s, c, step)
  {
    if step.CloseChannel? && s.control.channelClosed then s.(fault := Panic)
    else s.(control := ControlAfter(s.control, c, step))
  }

  function RecordWrite(h: History, job: nat, ok: bool, late: bool): History {
    h.(written := h.written + [job],
       succeeded := if ok then h.succeeded + {job} else h.succeeded,
       lateWrites := if late then h.lateWrites + 1 else h.lateWrites)
  }

  function Discard(h: History, job: nat): History {
    h.(discarded := h.discarded + [job])
  }

  function WorkerApply(s: State, ok: bool): State
    requires WorkerEnabled(s)
  {
    match s.worker
    case Checking => s.(worker := if s.control.stopped then Draining else Receiving)
    case Receiving =>
      if s.queue != [] then s.(queue := s.queue[1..], worker := Holding(s.queue[0]))
      else s.(worker := Stopped)
    case Holding(job) => s.(worker := Writing(job))
    case Writing(job) => s.(worker := Wrote(job), history := RecordWrite(s.history, job, ok, s.control.stopped))
    case Wrote(job) =>
      Count(s, job, if job in s.history.succeeded then Stored else WriteError).(worker := Checking)
    case Draining =>
      if s.queue != [] then
        s.(queue := s.queue[1..], worker := Discarding(s.queue[0]), history := Discard(s.history, s.queue[0]))
      else if s.control.channelClosed then s.(worker := Stopped)
      else s.(worker := Stopped, fault := DrainGaveUp)
    case Discarding(job) => Count(s, job, DroppedShutdown).(worker := Draining)
  }

  function Apply(s: State, a: Action): State
    requires Enabled(s, a)
  {
    match a
    case OfProducer(id, step) => ProducerApply(s, id, step)
    case OfCloser(c, step) => CloserApply(s, c, step)
    case OfWorker(ok) => WorkerApply(s, ok)
  }

  /** A sequence of steps, each enabled when its turn comes. */
  predicate IsRun(s: State, run: seq<Action>)
    decreases |run|
  {
    run == [] || (Enabled(s, run[0]) && IsRun(Apply(s, run[0]), run[1..]))
  }

  function Final(s: State, run: seq<Action>): State
    requires IsRun(s, run)
    decreases |run|
  {
    if run == [] then s else Final(Apply(s, run[0]), run[1..])
  }
}
