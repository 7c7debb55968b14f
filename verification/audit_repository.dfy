/**
 The repository's methods as one goroutine runs them, with the loops of the worker and the drain;
 `AuditQueue` interleaves the same code step by step.
 */
module AuditRepository {
  import opened AuditQueue
  import opened AuditInvariant
  import opened AuditResults

  type Count = (nat, Outcome)

  function Tagged(records: seq<nat>, o: Outcome): (counts: seq<Count>)
    ensures |counts| == |records|
  {
    seq(|records|, i requires 0 <= i < |records| => (records[i], o))
  }

  /** What the worker counts for records it writes: `succeeds(r)` says whether the write of r does. */
  function Results(records: seq<nat>, succeeds: nat -> bool): (counts: seq<Count>)
    ensures |counts| == |records|
  {
    seq(|records|, i requires 0 <= i < |records| =>
      (records[i], if succeeds(records[i]) then Stored else WriteError))
  }

  lemma ResultsGrow(records: seq<nat>, record: nat, succeeds: nat -> bool)
    ensures Results(records + [record], succeeds) == Results(records, succeeds) + Results([record], succeeds)
  {
  }

  lemma NoneDrained(counts: seq<Count>)
    ensures counts + Tagged([], DroppedShutdown) == counts
  {
  }

  /** How a Store call goes, by what it finds under the lock. */
  function Verdict(closed: bool, queued: nat, capacity: nat): Outcome {
    if closed then DroppedShutdown else if queued < capacity then Enqueued else DroppedQueueFull
  }

  /** The records a list of counts is about, and those of them that were queued. */
  function Counted(counts: seq<Count>): (records: seq<nat>)
    ensures |records| == |counts|
  {
    if counts == [] then [] else Counted(counts[..|counts| - 1]) + [counts[|counts| - 1].0]
  }

  function Accepted(counts: seq<Count>): seq<nat> {
    if counts == [] then []
    else
      var before, last := Accepted(counts[..|counts| - 1]), counts[|counts| - 1];
      if last.1.Enqueued? then before + [last.0] else before
  }

  lemma CountsGrow(counts: seq<Count>, record: nat, o: Outcome)
    ensures Counted(counts + [(record, o)]) == Counted(counts) + [record]
    ensures Accepted(counts + [(record, o)]) == if o.Enqueued? then Accepted(counts) + [record] else Accepted(counts)
  {
    assert (counts + [(record, o)])[..|counts|] == counts;
  }

  /**
   The counts after a run of the worker, one by one: each record written in turn, stored if and only if its
   write succeeds and write_error otherwise, then each record drained, as dropped.
   */
  ghost predicate CountsEachRecord(
    before: seq<Count>, after: seq<Count>, written: seq<nat>, drained: seq<nat>, succeeds: nat -> bool)
  {
    var n := |before|;
    && before <= after && |after| == n + |written| + |drained|
    && (forall i :: 0 <= i < |written| ==>
          && after[n + i].0 == written[i]
          && (after[n + i].1 == Stored <==> succeeds(written[i]))
          && (after[n + i].1 == WriteError <==> !succeeds(written[i])))
    && (forall i :: 0 <= i < |drained| ==> after[n + |written| + i] == (drained[i], DroppedShutdown))
  }

  lemma ResultsCountEachRecord(before: seq<Count>, written: seq<nat>, drained: seq<nat>, succeeds: nat -> bool)
    ensures CountsEachRecord(before, before + Results(written, succeeds) + Tagged(drained, DroppedShutdown),
                             written, drained, succeeds)
  {
  }

  /** What happens elsewhere before the worker next looks: Store calls, and Close closing or signalling. */
  datatype Tick = Tick(offers: seq<nat>, close: bool, stop: bool)

  /** How many ticks pass before the stop signal. */
  function TicksToStop(schedule: seq<Tick>): (n: nat)
    ensures n <= |schedule| && (n < |schedule| ==> schedule[n].stop)
    ensures forall i :: 0 <= i < n ==> !schedule[i].stop
  {
    if schedule == [] || schedule[0].stop then 0 else 1 + TicksToStop(schedule[1..])
  }

  predicate NeverStops(schedule: seq<Tick>) {
    forall i :: 0 <= i < |schedule| ==> !schedule[i].stop
  }

  /** On a closed channel one record is taken per tick, from the front, until the signal or the end. */
  predicate TakesOnePerTick(records: seq<nat>, schedule: seq<Tick>, taken: seq<nat>, k: nat, queue: seq<nat>) {
    && taken + queue == records && k == |taken|
    && if k <= |schedule| then TicksToStop(schedule) >= k else TicksToStop(schedule) == |schedule|
  }

  /** The records written before the stop signal: all of them when it comes too late or never. */
  function BeforeStop(records: seq<nat>, schedule: seq<Tick>): seq<nat> {
    var n := TicksToStop(schedule);
    if n < |schedule| && n < |records| then records[..n] else records
  }

  lemma TurnTakes(records: seq<nat>, schedule: seq<Tick>, taken: seq<nat>, k: nat, job: nat, queue: seq<nat>)
    requires TakesOnePerTick(records, schedule, taken, k, [job] + queue) && !(k < |schedule| && schedule[k].stop)
    ensures TakesOnePerTick(records, schedule, taken + [job], k + 1, queue)
  {
    assert (taken + [job]) + queue == taken + ([job] + queue);
  }

  lemma TurnEnds(records: seq<nat>, schedule: seq<Tick>, taken: seq<nat>, k: nat, queue: seq<nat>)
    requires TakesOnePerTick(records, schedule, taken, k, queue)
    requires (k < |schedule| && schedule[k].stop) || queue == []
    ensures taken == BeforeStop(records, schedule)
  {
    if queue == [] {
      assert taken == records;
    } else {
      assert records[..k] == taken;
    }
  }

  class Repository {
    const capacity: nat
    var queue: seq<nat>
    var closeOnce: bool
    var closed: bool
    var stopped: bool
    var written: seq<nat>          // the records given to params.Store, in order
    var drained: seq<nat>          // the records dropped by the drain loop, in order
    var storeCounts: seq<Count>    // counted by Store calls
    var workerCounts: seq<Count>   // counted by the worker

    /** No accepted record is lost, doubled or overtaken; the stop signal follows the close. */
    ghost predicate Valid()
      reads this
    {
      && Accepted(storeCounts) == written + drained + queue
      && |queue| <= capacity
      && (stopped ==> closed)
      && (drained != [] ==> stopped && queue == [])
    }

    constructor (queueSize: int)
      ensures Valid() && capacity == (if queueSize <= 0 then 1024 else queueSize)
      ensures queue == [] && !closeOnce && !closed && !stopped
      ensures written == [] && drained == [] && storeCounts == [] && workerCounts == []
    {
      capacity := if queueSize <= 0 then 1024 else queueSize;
      queue, closeOnce, closed, stopped := [], false, false, false;
      written, drained, storeCounts, workerCounts := [], [], [], [];
    }

    /** Never blocks: the record is queued, or dropped and counted as dropped. */
    method Store(record: nat)
      requires Valid()
      modifies this`queue, this`storeCounts
      ensures Valid()
      ensures var verdict := Verdict(closed, |old(queue)|, capacity);
              && queue == (if verdict.Enqueued? then old(queue) + [record] else old(queue))
              && storeCounts == old(storeCounts) + [(record, verdict)]
      ensures storeCounts[|old(storeCounts)|].1 == DroppedShutdown <==> closed
      ensures storeCounts[|old(storeCounts)|].1 == DroppedQueueFull <==> !closed && |old(queue)| == capacity
      ensures storeCounts[|old(storeCounts)|].1 == Enqueued <==> !closed && |old(queue)| < capacity
      ensures old(queue) <= queue && Counted(storeCounts) == Counted(old(storeCounts)) + [record]
    {
      CountsGrow(storeCounts, record, Verdict(closed, |queue|, capacity));
      if closed {
        storeCounts := storeCounts + [(record, DroppedShutdown)];
        return;
      }
      if |queue| < capacity {
        queue := queue + [record];
        storeCounts := storeCounts + [(record, Enqueued)];
      } else {
        storeCounts := storeCounts + [(record, DroppedQueueFull)];
      }
    }

    /** Empties the queue, counting every record in it as dropped, in order. */
    method DropQueuedJobs() returns (dropped: nat)
      modifies this`queue, this`drained, this`workerCounts
      ensures queue == [] && dropped == |old(queue)| && drained == old(drained) + old(queue)
      ensures workerCounts == old(workerCounts) + Tagged(old(queue), DroppedShutdown)
      ensures forall i :: 0 <= i < dropped ==> workerCounts[|old(workerCounts)| + i] == (old(queue)[i], DroppedShutdown)
    {
      dropped := 0;
      ghost var records, before := queue, workerCounts;
      while queue != []
        invariant dropped + |queue| == |records| && queue == records[dropped..]
        invariant drained == old(drained) + records[..dropped]
        invariant workerCounts == before + Tagged(records[..dropped], DroppedShutdown)
        decreases |queue|
      {
        var j := queue[0];
        queue := queue[1..];
        assert records[..dropped + 1] == records[..dropped] + [j];
        dropped := dropped + 1;
        drained := drained + [j];
        workerCounts := workerCounts + [(j, DroppedShutdown)];
      }
      assert records[..dropped] == records;
    }

    method ShouldStopWorker() returns (stop: bool)
      requires Valid()
      modifies this`queue, this`drained, this`workerCounts
      ensures Valid() && stop == stopped
      ensures stop ==> queue == [] && drained == old(drained) + old(queue)
                       && workerCounts == old(workerCounts) + Tagged(old(queue), DroppedShutdown)
      ensures stop && old(drained) == [] ==> drained == old(queue)
      ensures !stop ==> queue == old(queue) && drained == old(drained) && workerCounts == old(workerCounts)
    {
      if !stopped {
        return false;
      }
      var _ := DropQueuedJobs();
      assert [] + old(queue) == old(queue);
      return true;
    }

    method StoreAll(records: seq<nat>)
      requires Valid()
      modifies this`queue, this`storeCounts
      ensures Valid() && old(queue) <= queue && (closed ==> queue == old(queue))
      ensures Counted(storeCounts) == Counted(old(storeCounts)) + records
    {
      for i := 0 to |records|
        invariant Valid() && old(queue) <= queue && (closed ==> queue == old(queue))
        invariant Counted(storeCounts) == Counted(old(storeCounts)) + records[..i]
      {
        assert records[..i + 1] == records[..i] + [records[i]];
        Store(records[i]);
      }
      assert records[..|records|] == records;
    }

    /** Everybody else, for one tick; after the last tick of the schedule the channel is closed. */
    method Elsewhere(schedule: seq<Tick>, k: nat)
      requires Valid()
      modifies this`queue, this`storeCounts, this`closed, this`stopped
      ensures Valid() && old(queue) <= queue && (old(closed) ==> queue == old(queue))
      ensures closed == (old(closed) || k >= |schedule| || schedule[k].close)
      ensures stopped == (old(stopped) || (closed && k < |schedule| && schedule[k].stop))
      ensures Counted(storeCounts) == Counted(old(storeCounts)) + (if k < |schedule| then schedule[k].offers else [])
    {
      if k < |schedule| {
        StoreAll(schedule[k].offers);
        closed := closed || schedule[k].close;
        stopped := stopped || (closed && schedule[k].stop);
      } else {
        closed := true;
        assert Counted(storeCounts) + [] == Counted(storeCounts);
      }
    }

    /** Blocks until there is a record or the channel is closed, while the ticks go on. */
    method Await(schedule: seq<Tick>, k: nat) returns (next: nat)
      requires Valid() && (k > |schedule| ==> closed)
      modifies this`queue, this`storeCounts, this`closed, this`stopped
      ensures Valid() && next >= k && (queue != [] || closed)
      ensures stopped && !old(stopped) ==> !NeverStops(schedule)
      ensures old(stopped) ==> stopped
      ensures next > |schedule| ==> closed
      ensures old(queue) != [] || old(closed) ==>
                next == k && queue == old(queue) && closed == old(closed) && stopped == old(stopped)
    {
      next := k;
      while queue == [] && !closed
        invariant Valid() && next >= k && (old(stopped) ==> stopped) && (next > |schedule| ==> closed)
        invariant stopped && !old(stopped) ==> !NeverStops(schedule)
        invariant old(queue) != [] || old(closed) ==>
                    next == k && queue == old(queue) && closed == old(closed) && stopped == old(stopped)
        decreases if next < |schedule| then |schedule| - next else 0, !closed
      {
        Elsewhere(schedule, next);
        next := next + 1;
      }
    }

    method WriteNext(succeeds: nat -> bool) returns (job: nat)
      requires Valid() && queue != []
      modifies this`queue, this`written, this`workerCounts
      ensures Valid() && [job] + queue == old(queue) && written == old(written) + [job]
      ensures workerCounts == old(workerCounts) + Results([job], succeeds)
    {
      job := queue[0];
      assert written + drained + queue == written + queue;
      queue := queue[1..];
      written := written + [job];
      if succeeds(job) {
        workerCounts := workerCounts + [(job, Stored)];
      } else {
        workerCounts := workerCounts + [(job, WriteError)];
      }
    }

    /** The receive and the write: nothing is left on a closed channel, or one record is taken and written. */
    method Receive(schedule: seq<Tick>, k: nat, succeeds: nat -> bool) returns (next: nat, done: bool, job: nat)
      requires Valid() && drained == [] && !stopped && (k > |schedule| ==> closed)
      modifies this`queue, this`closed, this`stopped, this`written, this`storeCounts, this`workerCounts
      ensures Valid() && next >= k && (next > |schedule| ==> closed) && (stopped ==> !NeverStops(schedule))
      ensures if done
              then closed && queue == [] && written == old(written) && workerCounts == old(workerCounts)
              else written == old(written) + [job] && workerCounts == old(workerCounts) + Results([job], succeeds)
      ensures old(closed) ==>
                closed && !stopped && next == k && if done then old(queue) == [] else [job] + queue == old(queue)
    {
      job := 0;
      next := Await(schedule, k);
      done := queue == [];
      if !done {
        job := WriteNext(succeeds);
      }
    }

    /** One turn of the worker's loop: it ends the loop, or takes one record and writes it. */
    method Turn(schedule: seq<Tick>, k: nat, succeeds: nat -> bool) returns (next: nat, done: bool, job: nat)
      requires Valid() && drained == [] && (k > |schedule| ==> closed)
      modifies this`queue, this`closed, this`stopped, this`written, this`drained, this`storeCounts, this`workerCounts
      ensures Valid() && (done ==> closed && queue == []) && (old(stopped) ==> done && stopped)
      ensures stopped && !old(stopped) ==> !NeverStops(schedule)
      ensures next > k && (next > |schedule| ==> closed)
      ensures if done
              then written == old(written) && workerCounts == old(workerCounts) + Tagged(drained, DroppedShutdown)
              else drained == [] && written == old(written) + [job]
                   && workerCounts == old(workerCounts) + Results([job], succeeds)
      ensures old(closed) ==>
                closed &&
                if done then old(stopped) || (k < |schedule| && schedule[k].stop) || old(queue) == []
                else next == k + 1 && [job] + queue == old(queue) && !(k < |schedule| && schedule[k].stop) && !stopped
    {
      job := 0;
      Elsewhere(schedule, k);
      next := k + 1;
      done := ShouldStopWorker();
      if !done {
        NoneDrained(workerCounts);
        next, done, job := Receive(schedule, next, succeeds);
      }
    }

    /**
     The worker, with anything happening elsewhere between its steps. It leaves an empty closed channel;
     what it wrote and then drained is what was accepted, in order, each record counted by its own result,
     and it drains only on a stop signal. On a closed channel exactly the records taken before the signal
     are written.
     */
    method RunWorker(schedule: seq<Tick>, succeeds: nat -> bool)
      requires Valid() && drained == []
      modifies this`queue, this`closed, this`stopped, this`written, this`drained, this`storeCounts, this`workerCounts
      ensures Valid() && closed && queue == [] && old(written) <= written
      ensures Accepted(storeCounts) == written + drained
      ensures drained != [] ==> stopped
      ensures stopped ==> old(stopped) || !NeverStops(schedule)
      ensures workerCounts == old(workerCounts) + Results(written[|old(written)|..], succeeds)
                              + Tagged(drained, DroppedShutdown)
      ensures CountsEachRecord(old(workerCounts), workerCounts, written[|old(written)|..], drained, succeeds)
      ensures old(stopped) ==> written == old(written)
      ensures old(closed) && !old(stopped) ==> written == old(written) + BeforeStop(old(queue), schedule)
    {
      var k := 0;
      var done := false;
      var job;
      ghost var taken: seq<nat> := [];
      ghost var start, records, exact := workerCounts, queue, closed && !stopped;
      while !done
        invariant Valid() && written == old(written) + taken && (k > |schedule| ==> closed)
        invariant if done then closed && queue == [] else drained == []
        invariant workerCounts == start + Results(taken, succeeds) + (if done then Tagged(drained, DroppedShutdown) else [])
        invariant stopped ==> old(stopped) || !NeverStops(schedule)
        invariant old(stopped) ==> stopped && taken == []
        invariant exact ==> closed && if done then taken == BeforeStop(records, schedule)
                                      else !stopped && TakesOnePerTick(records, schedule, taken, k, queue)
        decreases !done, if k <= |schedule| then |schedule| - k + 1 else 0, |queue|
      {
        ghost var turn, left := k, queue;
        k, done, job := Turn(schedule, k, succeeds);
        if done {
          if exact {
            TurnEnds(records, schedule, taken, turn, left);
          }
        } else {
          if exact {
            TurnTakes(records, schedule, taken, turn, job, queue);
          }
          ResultsGrow(taken, job, succeeds);
          taken := taken + [job];
        }
      }
      assert written[|old(written)|..] == taken;
      ResultsCountEachRecord(start, taken, drained, succeeds);
    }

    /** The first call closes the channel and waits for the worker; later calls return at once. */
    method Close(schedule: seq<Tick>, succeeds: nat -> bool)
      requires Valid() && (!closeOnce ==> !closed && drained == [])
      modifies this
      ensures Valid() && closeOnce
      ensures old(closeOnce) ==>
                queue == old(queue) && closed == old(closed) && written == old(written) && drained == old(drained)
                && workerCounts == old(workerCounts)
      ensures !old(closeOnce) ==>
                && closed && queue == [] && Accepted(storeCounts) == written + drained
                && old(written) <= written
                && workerCounts == old(workerCounts) + Results(written[|old(written)|..], succeeds)
                                   + Tagged(drained, DroppedShutdown)
                && CountsEachRecord(old(workerCounts), workerCounts, written[|old(written)|..], drained, succeeds)
                && (NeverStops(schedule) ==> written == old(written) + old(queue))
    {
      if closeOnce {
        return;
      }
      closeOnce := true;
      closed := true;
      RunWorker(schedule, succeeds);
    }
  }

  // ---- the methods' results are runs of the step system ----

  lemma RunOfCons(s: State, a: Action, rest: seq<Action>)
    requires Enabled(s, a) && IsRun(Apply(s, a), rest)
    ensures IsRun(s, [a] + rest) && Final(s, [a] + rest) == Final(Apply(s, a), rest)
  {
    assert ([a] + rest)[1..] == rest;
  }

  lemma RunOfTwo(s: State, id: nat, step: ProducerStep, next: ProducerStep)
    requires ProducerEnabled(s, id, step) && ProducerEnabled(ProducerApply(s, id, step), id, next)
    ensures var run := [OfProducer(id, step)] + ([OfProducer(id, next)] + []);
            IsRun(s, run) && Final(s, run) == ProducerApply(ProducerApply(s, id, step), id, next)
  {
    RunOfCons(ProducerApply(s, id, step), OfProducer(id, next), []);
    RunOfCons(s, OfProducer(id, step), [OfProducer(id, next)] + []);
  }

  /** How a Store call that nobody interrupts ends. */
  function StoreOutcome(s: State): Outcome {
    Verdict(s.control.closed, |s.queue|, s.capacity)
  }

  predicate Ended(p: Producer) {
    p.SentDone? || p.FullDone? || p.ShutDone?
  }

  predicate StoredAs(s: State, t: State, id: nat, o: Outcome) {
    && t.queue == (if o.Enqueued? then s.queue + [id] else s.queue)
    && t.counted == s.counted + multiset{(id, o)}
    && t.worker == s.worker && t.control == s.control
    && id in t.producers && Ended(t.producers[id])
  }

  /** From the moment the flag has been read. */
  lemma StoreEnds(s: State, id: nat) returns (run: seq<Action>)
    requires id in s.producers && (s.control.channelClosed ==> s.control.closed)
    requires s.producers[id] == if s.control.closed then ShutUncounted else Sending
    ensures IsRun(s, run) && forall i :: 0 <= i < |run| ==> run[i].OfProducer? && run[i].id == id
    ensures StoredAs(s, Final(s, run), id, StoreOutcome(s))
  {
    var sent := if s.control.closed then s else ProducerApply(s, id, TrySend);
    if s.control.closed {
      run := [OfProducer(id, CountDrop)] + [];
      RunOfCons(s, OfProducer(id, CountDrop), []);
    } else if |s.queue| < s.capacity {
      RunOfTwo(sent, id, CountEnqueued, ReleaseRead);
      run := [OfProducer(id, CountEnqueued)] + ([OfProducer(id, ReleaseRead)] + []);
      RunOfCons(s, OfProducer(id, TrySend), run);
      run := [OfProducer(id, TrySend)] + run;
    } else {
      RunOfTwo(sent, id, ReleaseRead, CountDrop);
      run := [OfProducer(id, ReleaseRead)] + ([OfProducer(id, CountDrop)] + []);
      RunOfCons(s, OfProducer(id, TrySend), run);
      run := [OfProducer(id, TrySend)] + run;
    }
  }

  /** A Store call that nobody interrupts does to queue and counters what the method does. */
  lemma StoreAloneIsTheMethod(s: State, id: nat) returns (run: seq<Action>)
    requires Inv(s) && id !in s.producers && NoWritePending(s.control)
    ensures IsRun(s, run) && forall i :: 0 <= i < |run| ==> run[i].OfProducer? && run[i].id == id
    ensures StoredAs(s, Final(s, run), id, StoreOutcome(s))
  {
    var arrived := ProducerApply(s, id, Arrive);
    var locked := ProducerApply(arrived, id, AcquireRead);
    var looked := ProducerApply(locked, id, CheckClosed);
    var rest := StoreEnds(looked, id);
    RunOfCons(locked, OfProducer(id, CheckClosed), rest);
    RunOfCons(arrived, OfProducer(id, AcquireRead), [OfProducer(id, CheckClosed)] + rest);
    run := [OfProducer(id, AcquireRead)] + ([OfProducer(id, CheckClosed)] + rest);
    RunOfCons(s, OfProducer(id, Arrive), run);
    run := [OfProducer(id, Arrive)] + run;
  }

  /**
   From any reachable state with a closed channel the worker alone empties the queue: without a stop
   signal every accepted record gets written, with one nothing more is written than is under way.
   */
  lemma {:induction false} WorkerAloneEmptiesTheQueue(s: State) returns (run: seq<Action>)
    requires Inv(s) && s.control.channelClosed
    ensures IsRun(s, run) && forall a :: a in run ==> a.OfWorker?
    ensures var t := Final(s, run);
            && t.worker.Stopped? && t.queue == []
            && t.history.accepted == s.history.accepted == t.history.written + t.history.discarded
            && (!s.control.stopped ==> t.history.written == s.history.accepted)
            && (s.control.stopped && InFlight(s.worker) == [] && !s.worker.Receiving?
                ==> t.history.written == s.history.written)
    decreases 6 * |s.queue| + WorkerRank(s.worker)
  {
    if s.worker.Stopped? {
      run := [];
    } else {
      var a := OfWorker(true);
      StepKeepsInv(s, a);
      WorkerKeepsControl(s, true);
      var rest := WorkerAloneEmptiesTheQueue(Apply(s, a));
      run := [a] + rest;
      assert run[1..] == rest;
    }
  }
}
