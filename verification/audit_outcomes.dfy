/**
 The counters of the audit repository against what the steps of a run themselves say: what a record's
 Store call found under the lock, and what the write of the record returned.
 */
module AuditOutcomes {
  import opened Wrappers
  import opened AuditQueue
  import opened AuditInvariant
  import opened AuditResults

  // ---- reading a run ----

  /** What params.Store returned for record `id`: true for no error. */
  function WriteResult(s: State, run: seq<Action>, id: nat): Option<bool>
    requires IsRun(s, run)
    decreases |run|
  {
    if run == [] then None
    else if run[0].OfWorker? && s.worker == Writing(id) then Some(run[0].ok)
    else WriteResult(Apply(s, run[0]), run[1..], id)
  }

  /** Whether the Store call of record `id` found the closed flag set. */
  function FoundClosed(s: State, run: seq<Action>, id: nat): Option<bool>
    requires IsRun(s, run)
    decreases |run|
  {
    if run == [] then None
    else if run[0] == OfProducer(id, CheckClosed) then Some(s.control.closed)
    else FoundClosed(Apply(s, run[0]), run[1..], id)
  }

  /** Whether it found room in the channel when it came to the send. */
  function FoundRoom(s: State, run: seq<Action>, id: nat): Option<bool>
    requires IsRun(s, run)
    decreases |run|
  {
    if run == [] then None
    else if run[0] == OfProducer(id, TrySend) then Some(|s.queue| < s.capacity)
    else FoundRoom(Apply(s, run[0]), run[1..], id)
  }

  // ---- what the write returned ----

  lemma StepWrites(s: State, a: Action, id: nat)
    requires Inv(s) && Enabled(s, a)
    ensures var h, g := s.history, Apply(s, a).history;
            if a.OfWorker? && s.worker == Writing(id)
            then id !in h.written && id in g.written && (id in g.succeeded <==> a.ok)
            else (id in g.written <==> id in h.written) && (id in g.succeeded <==> id in h.succeeded)
  {
    if a.OfWorker? && s.worker.Writing? {
      NextJobIsNew(s, s.worker.job);
    }
  }

  lemma {:induction false} WrittenStays(s: State, run: seq<Action>, id: nat)
    requires Inv(s) && IsRun(s, run) && id in s.history.written
    ensures id in Final(s, run).history.written
    ensures id in Final(s, run).history.succeeded <==> id in s.history.succeeded
    decreases |run|
  {
    if run == [] {
    } else {
      StepWrites(s, run[0], id);
      StepKeepsInv(s, run[0]);
      WrittenStays(Apply(s, run[0]), run[1..], id);
    }
  }

  lemma {:induction false} WriteResultIsRecorded(s: State, run: seq<Action>, id: nat)
    requires Inv(s) && IsRun(s, run) && id !in s.history.written
    ensures id in Final(s, run).history.written <==> WriteResult(s, run, id).Some?
    ensures id in Final(s, run).history.succeeded <==> WriteResult(s, run, id) == Some(true)
    decreases |run|
  {
    if run == [] {
    } else {
      var next := Apply(s, run[0]);
      StepWrites(s, run[0], id);
      StepKeepsInv(s, run[0]);
      if id in next.history.written {
        WrittenStays(next, run[1..], id);
      } else {
        WriteResultIsRecorded(next, run[1..], id);
      }
    }
  }

  // ---- what the Store call found ----

  datatype Stage = Undecided | MaySend | Sent | Full | Shut

  function StageOf(s: State, id: nat): Stage {
    if id !in s.producers then Undecided
    else
      var p := s.producers[id];
      if p.Arrived? || p.Locked? then Undecided
      else if p.Sending? then MaySend
      else if SentPhase(p) then Sent
      else if p.FullLocked? || p.FullUncounted? || p.FullDone? then Full
      else Shut
  }

  lemma SendDecides(s: State, id: nat)
    requires LockInv(s) && OnceInv(s.control) && ProducerEnabled(s, id, TrySend)
    ensures StageOf(s, id).MaySend? && !s.control.channelClosed
    ensures StageOf(ProducerApply(s, id, TrySend), id) == if |s.queue| < s.capacity then Sent else Full
  {
  }

  lemma ProducerStepDecides(s: State, id: nat, step: ProducerStep)
    requires ProducerEnabled(s, id, step) && (step.TrySend? ==> !s.control.channelClosed)
    ensures var t := ProducerApply(s, id, step);
            && id in t.producers && t.producers == s.producers[id := t.producers[id]]
            && (!step.CheckClosed? && !step.TrySend? ==> StageOf(t, id) == StageOf(s, id))
            && (step.CheckClosed? ==>
                  StageOf(s, id).Undecided? && StageOf(t, id) == if s.control.closed then Shut else MaySend)
  {
  }

  lemma StepDecides(s: State, a: Action, id: nat)
    requires Inv(s) && Enabled(s, a)
    ensures StageOf(Apply(s, a), id) ==
            if a == OfProducer(id, CheckClosed) then (if s.control.closed then Shut else MaySend)
            else if a == OfProducer(id, TrySend) then (if |s.queue| < s.capacity then Sent else Full)
            else StageOf(s, id)
    ensures a == OfProducer(id, CheckClosed) ==> StageOf(s, id).Undecided?
    ensures a == OfProducer(id, TrySend) ==> StageOf(s, id).MaySend?
  {
    if a.OfProducer? {
      if a.pstep.TrySend? {
        SendDecides(s, a.id);
      }
      ProducerStepDecides(s, a.id, a.pstep);
    } else if a.OfWorker? {
      WorkerKeepsControl(s, a.ok);
    } else {
      NoPanicOnClose(s, a.c, a.cstep);
    }
  }

  /** The stage after a run, from the stage before and what the call found on the way. */
  function Decided(before: Stage, closed: Option<bool>, room: Option<bool>): Stage {
    var looked := if before.Undecided? && closed.Some? then (if closed.value then Shut else MaySend) else before;
    if looked.MaySend? && room.Some? then (if room.value then Sent else Full) else looked
  }

  lemma {:induction false} RunDecides(s: State, run: seq<Action>, id: nat)
    requires Inv(s) && IsRun(s, run)
    ensures StageOf(Final(s, run), id) == Decided(StageOf(s, id), FoundClosed(s, run, id), FoundRoom(s, run, id))
    ensures StageOf(s, id).Undecided? && FoundRoom(s, run, id).Some? ==> FoundClosed(s, run, id) == Some(false)
    ensures !StageOf(s, id).Undecided? ==> FoundClosed(s, run, id).None?
    ensures !StageOf(s, id).Undecided? && !StageOf(s, id).MaySend? ==> FoundRoom(s, run, id).None?
    decreases |run|
  {
    if run == [] {
    } else {
      StepDecides(s, run[0], id);
      StepKeepsInv(s, run[0]);
      RunDecides(Apply(s, run[0]), run[1..], id);
    }
  }

  lemma EitherWay(o: Option<bool>)
    ensures o == None || o == Some(true) || o == Some(false)
  {
    if o.Some? {
      if o.value {
        assert o == Some(true);
      } else {
        assert o == Some(false);
      }
    }
  }

  /**
   Once all Store calls and a Close have returned, a record is counted as stored if and only if its write
   returned no error, as write_error if and only if it returned one, as dropped_queue_full if and only if
   its Store call found no room, and as dropped_shutdown if and only if that call found the flag set or the
   record was queued and never written; "enqueued" if and only if the call found room.
   */
  lemma OutcomeIsWhatHappened(capacity: nat, run: seq<Action>, id: nat)
    requires IsRun(Init(capacity), run) && Quiet(Final(Init(capacity), run))
    requires id in Final(Init(capacity), run).producers
    ensures var init, counted := Init(capacity), Final(Init(capacity), run).counted;
            var closed, room, write := FoundClosed(init, run, id), FoundRoom(init, run, id), WriteResult(init, run, id);
            && (counted[(id, Stored)] == 1 <==> write == Some(true))
            && (counted[(id, WriteError)] == 1 <==> write == Some(false))
            && (counted[(id, DroppedQueueFull)] == 1 <==> room == Some(false))
            && (counted[(id, DroppedShutdown)] == 1 <==> closed == Some(true) || (room == Some(true) && write == None))
            && (counted[(id, Enqueued)] == 1 <==> room == Some(true))
  {
    var init, s := Init(capacity), Final(Init(capacity), run);
    InitInv(capacity);
    ReachableInv(capacity, run);
    EveryRecordHasOneOutcome(capacity, run, id);
    WriteResultIsRecorded(init, run, id);
    RunDecides(init, run, id);
    AcceptedIsSent(s, id);
    EitherWay(WriteResult(init, run, id));
    assert id in s.history.accepted <==> id in s.history.written || id in s.history.discarded;
    DistinctSplits(s.history.written, s.history.discarded);
  }

  lemma AcceptedIsSent(s: State, id: nat)
    requires Inv(s)
    ensures id in s.history.accepted <==> StageOf(s, id).Sent?
    ensures id in s.history.written || id in s.history.discarded ==> id in s.history.accepted
  {
    HistoryIsAccepted(s, id);
  }
}
