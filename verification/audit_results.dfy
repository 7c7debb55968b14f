/** What the audit repository guarantees over every interleaving of Store calls, Close calls and the worker. */
module AuditResults {
  import opened AuditQueue
  import opened AuditInvariant

  lemma ReachableInv(capacity: nat, run: seq<Action>)
    requires IsRun(Init(capacity), run)
    ensures Inv(Final(Init(capacity), run))
  {
    InitInv(capacity);
    RunKeepsInv(Init(capacity), run);
  }

  /**
   No send and no second close ever reaches the closed channel, the channel never overflows, the
   drain loop never gives up on an open channel, and readers and the closer exclude each other.
   */
  lemma ChannelSafety(capacity: nat, run: seq<Action>)
    requires IsRun(Init(capacity), run)
    ensures var s := Final(Init(capacity), run);
            s.fault.NoFault? && |s.queue| <= capacity && (NoReader(s) || NoWriter(s.control))
  {
    ReachableInv(capacity, run);
    CapacityIsFixed(Init(capacity), run);
  }

  lemma {:induction false} CapacityIsFixed(s: State, run: seq<Action>)
    requires IsRun(s, run)
    ensures Final(s, run).capacity == s.capacity
    decreases |run|
  {
    if run == [] {
    } else {
      CapacityIsFixed(Apply(s, run[0]), run[1..]);
    }
  }

  /** Accepted records are conserved and leave in order: written ones first, then the drained tail. */
  lemma ConservationAndOrder(capacity: nat, run: seq<Action>)
    requires IsRun(Init(capacity), run)
    ensures var s := Final(Init(capacity), run);
            && s.history.accepted == s.history.written + InFlight(s.worker) + s.history.discarded + s.queue
            && s.history.written <= s.history.accepted
            && Distinct(s.history.accepted)
  {
    ReachableInv(capacity, run);
  }

  /** Every Store call has returned, and some Close call has. */
  ghost predicate Quiet(s: State) {
    && (forall id :: id in s.producers ==>
          s.producers[id].SentDone? || s.producers[id].FullDone? || s.producers[id].ShutDone?)
    && exists c :: CloserAt(s.control, c, Returned)
  }

  function Terminal(s: State, id: nat): nat {
    s.counted[(id, Stored)] + s.counted[(id, WriteError)]
    + s.counted[(id, DroppedQueueFull)] + s.counted[(id, DroppedShutdown)]
  }

  /**
   At the end each record given to Store has exactly one final outcome, the one that happened to it;
   "enqueued" is counted for exactly the records that were written or drained.
   */
  lemma EveryRecordHasOneOutcome(capacity: nat, run: seq<Action>, id: nat)
    requires IsRun(Init(capacity), run) && Quiet(Final(Init(capacity), run))
    requires id in Final(Init(capacity), run).producers
    ensures var s := Final(Init(capacity), run);
            && Terminal(s, id) == 1
            && (s.counted[(id, Stored)] == 1 <==> id in s.history.succeeded)
            && (s.counted[(id, WriteError)] == 1 <==> id in s.history.written && id !in s.history.succeeded)
            && (s.counted[(id, DroppedQueueFull)] == 1 <==> s.producers[id].FullDone?)
            && (s.counted[(id, DroppedShutdown)] == 1 <==> s.producers[id].ShutDone? || id in s.history.discarded)
            && (s.counted[(id, Enqueued)] == 1 <==> id in s.history.accepted)
            && s.history.accepted == s.history.written + s.history.discarded
  {
    var s := Final(Init(capacity), run);
    ReachableInv(capacity, run);
    DistinctSplits(s.history.written, s.history.discarded) by {
      assert s.history.accepted == s.history.written + s.history.discarded;
    }
    HistoryIsAccepted(s, id);
    assert s.counted[(id, Stored)] == if Due(s, id, Stored) then 1 else 0;
  }

  /** Close returns only once the worker has stopped and the channel is empty. */
  lemma CloseWaitsForWorker(capacity: nat, run: seq<Action>, c: nat)
    requires IsRun(Init(capacity), run) && CloserAt(Final(Init(capacity), run).control, c, Returned)
    ensures var s := Final(Init(capacity), run);
            s.worker.Stopped? && s.queue == [] && s.control.channelClosed
  {
    ReachableInv(capacity, run);
  }

  /** After the stop signal at most one more write completes. */
  lemma AtMostOneLateWrite(capacity: nat, run: seq<Action>)
    requires IsRun(Init(capacity), run)
    ensures Final(Init(capacity), run).history.lateWrites <= 1
  {
    ReachableInv(capacity, run);
  }

  // ---- Close always finishes ----

  function WorkerRank(w: Worker): nat {
    match w
    case Stopped => 0
    case Receiving => 1
    case Draining => 1
    case Checking => 2
    case Discarding(_) => 2
    case Wrote(_) => 3
    case Writing(_) => 4
    case Holding(_) => 5
  }

  function CloserRank(c: Closer): nat {
    match c
    case Announced => 7
    case HoldsLock => 6
    case FlagSet => 5
    case ChannelShut => 4
    case Waiting => 3
    case TimedOut => 2
    case StopSent => 1
    case _ => 0
  }

  /** What a Store call that holds the read lock may still do: its own steps, and a record for the worker. */
  function ReaderRank(p: Producer): nat {
    match p
    case Locked => 10
    case Sending => 9
    case SentUncounted => 2
    case SentCounted => 1
    case FullLocked => 1
    case _ => 0
  }

  function CallsAt(producers: map<nat, Producer>, p: Producer): set<nat> {
    set id | id in producers && producers[id] == p
  }

  function ReaderWork(m: map<nat, Producer>): nat {
    10 * |CallsAt(m, Locked)| + 9 * |CallsAt(m, Sending)| + 2 * |CallsAt(m, SentUncounted)|
    + |CallsAt(m, SentCounted)| + |CallsAt(m, FullLocked)|
  }

  lemma OneMore(before: set<nat>, after: set<nat>, id: nat)
    requires id !in before && after == before + {id}
    ensures |after| == |before| + 1
  {
  }

  lemma MoveIn(m: map<nat, Producer>, id: nat, p: Producer)
    requires !(id in m && m[id] == p)
    ensures |CallsAt(m[id := p], p)| == |CallsAt(m, p)| + 1
  {
    var before, after := CallsAt(m, p), CallsAt(m[id := p], p);
    assert id !in before;
    forall x
      ensures x in after <==> x in before + {id}
    {
    }
    OneMore(before, after, id);
  }

  lemma MoveOut(m: map<nat, Producer>, id: nat, p: Producer)
    requires id in m && m[id] != p
    ensures |CallsAt(m[id := p], m[id])| == |CallsAt(m, m[id])| - 1
  {
    var before, after := CallsAt(m, m[id]), CallsAt(m[id := p], m[id]);
    assert id !in after;
    forall x
      ensures x in before <==> x in after + {id}
    {
    }
    OneMore(after, before, id);
  }

  lemma MovePast(m: map<nat, Producer>, id: nat, p: Producer, q: Producer)
    requires p != q && !(id in m && m[id] == q)
    ensures CallsAt(m[id := p], q) == CallsAt(m, q)
  {
  }

  lemma MoveCounts(m: map<nat, Producer>, id: nat, p: Producer, q: Producer)
    ensures |CallsAt(m[id := p], q)|
         == |CallsAt(m, q)| + (if p == q then 1 else 0) - (if id in m && m[id] == q then 1 else 0)
  {
    if id in m && m[id] == q {
      if p == q {
        assert m[id := p] == m;
      } else {
        MoveOut(m, id, p);
      }
    } else {
      if p == q {
        MoveIn(m, id, p);
      } else {
        MovePast(m, id, p, q);
      }
    }
  }

  lemma MoveChangesWork(m: map<nat, Producer>, id: nat, p: Producer)
    ensures ReaderWork(m[id := p]) == ReaderWork(m) + ReaderRank(p) - (if id in m then ReaderRank(m[id]) else 0)
  {
    MoveCounts(m, id, p, Locked);
    MoveCounts(m, id, p, Sending);
    MoveCounts(m, id, p, SentUncounted);
    MoveCounts(m, id, p, SentCounted);
    MoveCounts(m, id, p, FullLocked);
  }

  /** The most steps still to be taken by the worker, the closer and, until the channel is closed, its last readers. */
  function Measure(s: State, c: nat): nat {
    6 * |s.queue| + WorkerRank(s.worker)
    + (if c in s.control.closers then CloserRank(s.control.closers[c]) else 0)
    + (if s.control.channelClosed then 0 else ReaderWork(s.producers))
  }

  /** A step of the worker, of the Close call that runs the shutdown, or of a reader it waits for. */
  predicate OfShutdown(s: State, a: Action, c: nat) {
    || a.OfWorker?
    || (a.OfCloser? && a.c == c)
    || (a.OfProducer? && !s.control.channelClosed && a.id in s.producers && HoldsRead(s.producers[a.id]))
  }

  /** Close call `c` is in closeOnce, has called Lock, and has not returned. */
  predicate ShuttingDown(s: State, c: nat) {
    s.control.once == Running(c) && c in s.control.closers && !s.control.closers[c].WantLock?
  }

  lemma WorkerMeasure(s: State, c: nat, ok: bool)
    requires Inv(s) && ShuttingDown(s, c) && WorkerEnabled(s)
    ensures Measure(WorkerApply(s, ok), c) < Measure(s, c)
  {
    WorkerKeepsControl(s, ok);
  }

  lemma CloserMeasure(s: State, c: nat, step: CloserStep)
    requires Inv(s) && ShuttingDown(s, c) && CloserEnabled(s, c, step)
    ensures Measure(CloserApply(s, c, step), c) < Measure(s, c)
    ensures ShuttingDown(CloserApply(s, c, step), c) || CloserApply(s, c, step).control.once.Finished?
  {
  }

  /** Once the writer has announced itself no reader comes in, and a step of one inside leaves it less to do. */
  lemma ReaderStep(s: State, c: nat, id: nat, step: ProducerStep)
    requires LockInv(s) && OnceInv(s.control) && ProducerEnabled(s, id, step)
    requires c in s.control.closers && WritePending(s.control.closers[c]) && !s.control.channelClosed
    ensures var t, rank := ProducerApply(s, id, step), if id in s.producers then ReaderRank(s.producers[id]) else 0;
            && id in t.producers && t.producers == s.producers[id := t.producers[id]]
            && t.worker == s.worker && t.control == s.control
            && 6 * |t.queue| + ReaderRank(t.producers[id]) <= 6 * |s.queue| + rank - (if rank > 0 then 1 else 0)
  {
  }

  lemma ReaderMeasure(s: State, c: nat, id: nat, step: ProducerStep)
    requires Inv(s) && ShuttingDown(s, c) && !s.control.channelClosed && ProducerEnabled(s, id, step)
    ensures Measure(ProducerApply(s, id, step), c)
         <= Measure(s, c) - (if id in s.producers && HoldsRead(s.producers[id]) then 1 else 0)
  {
    assert WritePending(s.control.closers[c]);
    ReaderStep(s, c, id, step);
    MoveChangesWork(s.producers, id, ProducerApply(s, id, step).producers[id]);
  }

  lemma ClosedQueueOnlyShrinks(s: State, id: nat, step: ProducerStep)
    requires ProducerEnabled(s, id, step) && s.control.channelClosed
    ensures ProducerApply(s, id, step).queue == s.queue && ProducerApply(s, id, step).worker == s.worker
  {
  }

  /** While one Close call is inside closeOnce, another can only arrive. */
  lemma OtherClosersWait(s: State, c: nat, other: nat, step: CloserStep)
    requires OnceInv(s.control) && s.control.once == Running(c) && other != c && CloserEnabled(s, other, step)
    ensures step.CallClose?
  {
  }

  lemma OthersKeepMeasure(s: State, c: nat, a: Action)
    requires Inv(s) && ShuttingDown(s, c) && Enabled(s, a) && !OfShutdown(s, a, c)
    ensures Measure(Apply(s, a), c) <= Measure(s, c) && ShuttingDown(Apply(s, a), c)
  {
    if a.OfProducer? {
      ProducerKeepsControl(s, a.id, a.pstep);
      if s.control.channelClosed {
        ClosedQueueOnlyShrinks(s, a.id, a.pstep);
      } else {
        ReaderMeasure(s, c, a.id, a.pstep);
      }
    } else {
      OtherClosersWait(s, c, a.c, a.cstep);
      assert CloserApply(s, a.c, CallClose) == s.(control := MoveCloser(s.control, a.c, Calling));
    }
  }

  /** A Store call that holds the read lock is never blocked. */
  lemma ReaderNeverBlocks(s: State, id: nat) returns (step: ProducerStep)
    requires id in s.producers && HoldsRead(s.producers[id])
    ensures ProducerEnabled(s, id, step)
  {
    match s.producers[id]
    case Locked => step := CheckClosed;
    case Sending => step := TrySend;
    case SentUncounted => step := CountEnqueued;
    case SentCounted => step := ReleaseRead;
    case FullLocked => step := ReleaseRead;
  }

  /** While the shutdown runs, the worker, the closer or a reader it waits for can take a step. */
  lemma ShutdownNeverStuck(s: State, c: nat) returns (a: Action)
    requires Inv(s) && ShuttingDown(s, c)
    ensures Enabled(s, a) && OfShutdown(s, a, c)
  {
    var p := s.control.closers[c];
    if p.Announced? {
      if NoReader(s) {
        a := OfCloser(c, AcquireWrite);
      } else {
        var id :| id in s.producers && HoldsRead(s.producers[id]);
        var step := ReaderNeverBlocks(s, id);
        a := OfProducer(id, step);
      }
    } else if p.HoldsLock? {
      a := OfCloser(c, SetFlag);
    } else if p.FlagSet? {
      a := OfCloser(c, CloseChannel);
    } else if !s.worker.Stopped? {
      a := OfWorker(true);
    } else {
      a := OfCloser(c, if p.ChannelShut? then ReleaseWrite
                       else if p.TimedOut? then SignalStop
                       else SeeWorkerDone);
    }
  }

  function ShutdownSteps(s: State, run: seq<Action>, c: nat): nat
    requires IsRun(s, run)
    decreases |run|
  {
    if run == [] then 0
    else (if OfShutdown(s, run[0], c) then 1 else 0) + ShutdownSteps(Apply(s, run[0]), run[1..], c)
  }

  /**
   From its call of Lock on, however Store and other Close calls interleave, the worker, the closer and
   the readers it waits for can take only so many steps before Close has finished; they are never all
   blocked (`ShutdownNeverStuck`), so it does.
   */
  lemma {:induction false} CloseFinishes(s: State, c: nat, run: seq<Action>)
    requires Inv(s) && ShuttingDown(s, c) && IsRun(s, run)
    requires ShutdownSteps(s, run, c) >= Measure(s, c)
    ensures exists k: nat :: k <= |run| && IsRun(s, run[..k]) && Final(s, run[..k]).control.once.Finished?
    decreases |run|
  {
    ShutdownHasMeasure(s, c);
    assert run != [];
    var a, next, rest := run[0], Apply(s, run[0]), run[1..];
    StepKeepsInv(s, a);
    ShutdownStep(s, c, a);
    if next.control.once.Finished? {
      OneStepRun(s, a);
      assert run[..1] == [a];
    } else {
      CloseFinishes(next, c, rest);
      var k: nat :| k <= |rest| && IsRun(next, rest[..k]) && Final(next, rest[..k]).control.once.Finished?;
      assert run[..k + 1][0] == a && run[..k + 1][1..] == rest[..k];
      assert IsRun(s, run[..k + 1]);
    }
  }

  lemma OneStepRun(s: State, a: Action)
    requires Enabled(s, a)
    ensures IsRun(s, [a]) && Final(s, [a]) == Apply(s, a)
  {
    assert [a][1..] == [];
    assert Final(Apply(s, a), []) == Apply(s, a);
  }

  lemma ShutdownStep(s: State, c: nat, a: Action)
    requires Inv(s) && ShuttingDown(s, c) && Enabled(s, a)
    ensures ShuttingDown(Apply(s, a), c) || Apply(s, a).control.once.Finished?
    ensures Measure(Apply(s, a), c) <= Measure(s, c) - (if OfShutdown(s, a, c) then 1 else 0)
  {
    if !OfShutdown(s, a, c) {
      OthersKeepMeasure(s, c, a);
    } else if a.OfWorker? {
      WorkerMeasure(s, c, a.ok);
      WorkerKeepsControl(s, a.ok);
    } else if a.OfCloser? {
      CloserMeasure(s, c, a.cstep);
    } else {
      ReaderMeasure(s, c, a.id, a.pstep);
      ProducerKeepsControl(s, a.id, a.pstep);
    }
  }

  lemma ShutdownHasMeasure(s: State, c: nat)
    requires Inv(s) && ShuttingDown(s, c)
    ensures Measure(s, c) > 0
  {
  }

  // ---- from the call of Close to its call of Lock ----

  /** Inside closeOnce nothing anyone else does keeps a Close call from calling Lock. */
  lemma LockCallNeverBlocked(s: State, c: nat, a: Action)
    requires Inv(s) && CloserAt(s.control, c, WantLock)
    ensures CloserEnabled(s, c, AnnounceWrite) && ShuttingDown(CloserApply(s, c, AnnounceWrite), c)
    ensures Enabled(s, a) && !(a.OfCloser? && a.c == c) ==> CloserAt(Apply(s, a).control, c, WantLock)
  {
    assert s.control.once == Running(c);
    if Enabled(s, a) {
      if a.OfProducer? {
        ProducerKeepsControl(s, a.id, a.pstep);
      } else if a.OfWorker? {
        WorkerKeepsControl(s, a.ok);
      } else if a.c != c {
        OtherClosersWait(s, c, a.c, a.cstep);
      }
    }
  }

  /** A Close call outside closeOnce enters it, or returns at once when another has finished. */
  lemma CallerEntersOrReturns(s: State, c: nat)
    requires Inv(s) && CloserAt(s.control, c, Calling) && !s.control.once.Running?
    ensures CloserEnabled(s, c, EnterOnce)
    ensures CloserAt(CloserApply(s, c, EnterOnce).control, c, if s.control.once.Finished? then Returned else WantLock)
  {
  }

  /** A new call starts here; everything else belongs to a call or a worker already running. */
  predicate Starts(a: Action) {
    (a.OfProducer? && a.pstep.Arrive?) || (a.OfCloser? && a.cstep.CallClose?)
  }

  /** As long as a Close call has not returned, some call or worker already running can step. */
  lemma NoDeadlock(capacity: nat, run: seq<Action>, c: nat) returns (a: Action)
    requires IsRun(Init(capacity), run)
    requires c in Final(Init(capacity), run).control.closers
    requires !Final(Init(capacity), run).control.closers[c].Returned?
    ensures Enabled(Final(Init(capacity), run), a) && !Starts(a)
  {
    var s := Final(Init(capacity), run);
    ReachableInv(capacity, run);
    if !s.control.once.Running? {
      return OfCloser(c, EnterOnce);
    }
    var r := s.control.once.closer;
    if s.control.closers[r].WantLock? {
      LockCallNeverBlocked(s, r, OfWorker(true));
      return OfCloser(r, AnnounceWrite);
    }
    a := ShutdownNeverStuck(s, r);
  }
}
