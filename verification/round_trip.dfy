/** The instrumented transport: one finalize per round trip, and the in-flight gauge it balances. */
module RoundTrips {
  import opened Wrappers
  import opened Capture

  /** What ends a round trip; EOF is reported to finalize as no error. */
  datatype Outcome = TransportFailed | NilResponse | MissingBody | ReachedEOF | ReadFailed | BodyClosed(failed: bool)

  // ---- any number of round trips, and any sequence of Read and Close on their bodies ----

  datatype Phase = Requesting | Streaming | WithoutBody

  /** `finals` lists the calls of finalize for this round trip. */
  datatype Trip = Trip(series: string, phase: Phase, finals: seq<Outcome>)

  datatype State = State(trips: map<nat, Trip>, gauge: map<string, int>)

  datatype Action =
    | Start(id: nat, series: string)
    | Respond(id: nat, response: Response)
    | Read(id: nat, err: ReadError)
    | Close(id: nat, failed: bool)

  datatype Response = Error | Nil | NoBody | HasBody

  const EMPTY: State := State.State(map[], map[])

  predicate Enabled(s: State, a: Action) {
    match a
    case Start(id, _) => id !in s.trips
    case Respond(id, _) => id in s.trips && s.trips[id].phase.Requesting?
    case Read(id, _) => id in s.trips && s.trips[id].phase.Streaming?
    case Close(id, _) => id in s.trips && s.trips[id].phase.Streaming?
  }

  function Gauge(s: State, series: string): int {
    if series in s.gauge then s.gauge[series] else 0
  }

  function AddToGauge(s: State, series: string, change: int): State {
    s.(gauge := s.gauge[series := Gauge(s, series) + change])
  }

  /** finalize itself: it records and decrements, however often it is called. */
  function FinalizeTrip(s: State, id: nat, o: Outcome): State
    requires id in s.trips
  {
    var trip := s.trips[id];
    AddToGauge(s.(trips := s.trips[id := trip.(finals := trip.finals + [o])]), trip.series, -1)
  }

  /** runFinalize goes through a sync.Once. */
  function FinalizeOnce(s: State, id: nat, o: Outcome): State
    requires id in s.trips
  {
    if s.trips[id].finals == [] then FinalizeTrip(s, id, o) else s
  }

  function SetPhase(s: State, id: nat, phase: Phase): State
    requires id in s.trips
  {
    s.(trips := s.trips[id := s.trips[id].(phase := phase)])
  }

  /** What a step reports to finalize, if it does. */
  function Trigger(a: Action): Option<Outcome> {
    match a
    case Start(_, _) => None
    case Respond(_, r) =>
      (match r case Error => Some(TransportFailed) case Nil => Some(NilResponse) case NoBody => Some(MissingBody)
               case HasBody => None)
    case Read(_, err) => if err.EOF? then Some(ReachedEOF) else if err.Failed? then Some(ReadFailed) else None
    case Close(_, failed) => Some(BodyClosed(failed))
  }

  function Apply(s: State, a: Action): State
    requires Enabled(s, a)
  {
    match a
    case Start(id, series) => AddToGauge(s.(trips := s.trips[id := Trip(series, Requesting, [])]), series, 1)
    case Respond(id, r) =>
      if r.HasBody? then SetPhase(s, id, Streaming) else FinalizeTrip(SetPhase(s, id, WithoutBody), id, Trigger(a).value)
    case Read(id, _) => if Trigger(a).Some? then FinalizeOnce(s, id, Trigger(a).value) else s
    case Close(id, _) => FinalizeOnce(s, id, Trigger(a).value)
  }

  predicate IsRun(s: State, run: seq<Action>)
    decreases |run|
  {
    run == [] || (Enabled(s, run[0]) && IsRun(Apply(s, run[0]), run[1..]))
  }

  function Final(s: State, run: seq<Action>): State
    requires IsRun(s, run)
    decreases |run|
  {
    if run == [] then s else Final(Apply(s, run[0]), run[1..])
  }

  /** The first thing in the run that must end this round trip, read off the actions alone. */
  function FirstTrigger(run: seq<Action>, id: nat): Option<Outcome> {
    if run == [] then None
    else if run[0].id == id && Trigger(run[0]).Some? then Trigger(run[0])
    else FirstTrigger(run[1..], id)
  }

  /** The round trips that have started and not been finalized. */
  function InFlight(s: State, series: string): set<nat> {
    set id | id in s.trips && s.trips[id].series == series && s.trips[id].finals == []
  }

  ghost predicate GaugeInv(s: State) {
    forall series {:trigger Gauge(s, series)} :: Gauge(s, series) == |InFlight(s, series)|
  }

  /** A trip that is still being requested has not been finalized. */
  ghost predicate PhaseInv(s: State) {
    forall id :: id in s.trips && s.trips[id].phase.Requesting? ==> s.trips[id].finals == []
  }

  lemma FinalizeKeepsGauge(s: State, id: nat, o: Outcome)
    requires GaugeInv(s) && id in s.trips && s.trips[id].finals == []
    ensures GaugeInv(FinalizeTrip(s, id, o))
  {
    var t := FinalizeTrip(s, id, o);
    forall series
      ensures Gauge(t, series) == |InFlight(t, series)|
    {
      assert Gauge(s, series) == |InFlight(s, series)|;
      if series == s.trips[id].series {
        assert InFlight(s, series) == InFlight(t, series) + {id} && id !in InFlight(t, series);
      } else {
        assert InFlight(s, series) == InFlight(t, series);
      }
    }
  }

  lemma SetPhaseKeepsGauge(s: State, id: nat, phase: Phase)
    requires GaugeInv(s) && id in s.trips
    ensures GaugeInv(SetPhase(s, id, phase))
  {
    var t := SetPhase(s, id, phase);
    forall series
      ensures Gauge(t, series) == |InFlight(t, series)|
    {
      assert Gauge(s, series) == |InFlight(s, series)|;
      assert InFlight(s, series) == InFlight(t, series);
    }
  }

  lemma StartKeepsGauge(s: State, id: nat, started: string)
    requires GaugeInv(s) && id !in s.trips
    ensures GaugeInv(Apply(s, Start(id, started)))
  {
    var t := Apply(s, Start(id, started));
    forall series
      ensures Gauge(t, series) == |InFlight(t, series)|
    {
      assert Gauge(s, series) == |InFlight(s, series)|;
      if series == started {
        assert InFlight(t, series) == InFlight(s, series) + {id} && id !in InFlight(s, series);
      } else {
        assert InFlight(s, series) == InFlight(t, series);
      }
    }
  }

  lemma StepKeepsGauge(s: State, a: Action)
    requires GaugeInv(s) && PhaseInv(s) && Enabled(s, a)
    ensures GaugeInv(Apply(s, a)) && PhaseInv(Apply(s, a))
  {
    match a
    case Start(id, series) => StartKeepsGauge(s, id, series);
    case Respond(id, r) =>
      if r.HasBody? {
        SetPhaseKeepsGauge(s, id, Streaming);
      } else {
        SetPhaseKeepsGauge(s, id, WithoutBody);
        FinalizeKeepsGauge(SetPhase(s, id, WithoutBody), id, Trigger(a).value);
      }
    case Read(id, _) =>
      if Trigger(a).Some? && s.trips[id].finals == [] {
        FinalizeKeepsGauge(s, id, Trigger(a).value);
      }
    case Close(id, _) =>
      if s.trips[id].finals == [] {
        FinalizeKeepsGauge(s, id, Trigger(a).value);
      }
  }

  lemma {:induction false} RunKeepsGauge(s: State, run: seq<Action>)
    requires GaugeInv(s) && PhaseInv(s) && IsRun(s, run)
    ensures GaugeInv(Final(s, run)) && PhaseInv(Final(s, run))
    decreases |run|
  {
    if run == [] {
    } else {
      StepKeepsGauge(s, run[0]);
      RunKeepsGauge(Apply(s, run[0]), run[1..]);
    }
  }

  /** At every point the gauge of each label set is the number of its round trips started and not finalized. */
  lemma GaugeCountsInFlight(run: seq<Action>, series: string)
    requires IsRun(EMPTY, run)
    ensures Gauge(Final(EMPTY, run), series) == |InFlight(Final(EMPTY, run), series)|
  {
    assert forall l :: InFlight(EMPTY, l) == {};
    RunKeepsGauge(EMPTY, run);
  }

  /** A step finalizes its own trip, once, when it triggers; it leaves every other trip alone. */
  lemma StepFinals(s: State, a: Action, id: nat)
    requires PhaseInv(s) && Enabled(s, a) && id in s.trips
    ensures id in Apply(s, a).trips
    ensures Apply(s, a).trips[id].finals ==
            if a.id == id && Trigger(a).Some? && s.trips[id].finals == [] then [Trigger(a).value] else s.trips[id].finals
    ensures a.id != id ==> Apply(s, a).trips[id] == s.trips[id]
  {
  }

  lemma {:induction false} FinalsFollowTrigger(s: State, run: seq<Action>, id: nat)
    requires GaugeInv(s) && PhaseInv(s) && IsRun(s, run) && id in s.trips
    ensures id in Final(s, run).trips
    ensures var first := FirstTrigger(run, id);
            Final(s, run).trips[id].finals ==
            if s.trips[id].finals == [] && first.Some? then [first.value] else s.trips[id].finals
    decreases |run|
  {
    if run == [] {
    } else {
      StepFinals(s, run[0], id);
      StepKeepsGauge(s, run[0]);
      FinalsFollowTrigger(Apply(s, run[0]), run[1..], id);
    }
  }

  /**
   In every interleaving a round trip is finalized at most once, and exactly once as soon as an error,
   a nil response, a missing body, EOF or a Close has occurred, with what occurred first.
   */
  lemma {:induction false} FinalizedOnceByFirstTrigger(s: State, run: seq<Action>, id: nat)
    requires GaugeInv(s) && PhaseInv(s) && IsRun(s, run) && id !in s.trips && id in Final(s, run).trips
    ensures var first := FirstTrigger(run, id);
            Final(s, run).trips[id].finals == if first.Some? then [first.value] else []
    decreases |run|
  {
    var next := Apply(s, run[0]);
    StepKeepsGauge(s, run[0]);
    if id in next.trips {
      FinalsFollowTrigger(next, run[1..], id);
    } else {
      FinalizedOnceByFirstTrigger(next, run[1..], id);
    }
  }

  // ---- what a finalized trip reports, said from the outcome ----

  /** The step that each outcome reports: nothing else does, and a step that reports, reports that. */
  predicate Reports(a: Action, o: Outcome) {
    match o
    case TransportFailed => a.Respond? && a.response.Error?
    case NilResponse => a.Respond? && a.response.Nil?
    case MissingBody => a.Respond? && a.response.NoBody?
    case ReachedEOF => a.Read? && a.err.EOF?
    case ReadFailed => a.Read? && a.err.Failed?
    case BodyClosed(failed) => a.Close? && a.failed == failed
  }

  lemma TriggerReports(a: Action, o: Outcome)
    ensures Trigger(a) == Some(o) <==> Reports(a, o)
  {
  }

  ghost predicate ReportsSomething(a: Action) {
    exists o :: Reports(a, o)
  }

  lemma TriggersReport(a: Action)
    ensures Trigger(a).Some? <==> ReportsSomething(a)
  {
    if Trigger(a).Some? {
      TriggerReports(a, Trigger(a).value);
    }
    if ReportsSomething(a) {
      var o :| Reports(a, o);
      TriggerReports(a, o);
    }
  }

  /** Step k is the first of trip `id` that reports anything. */
  ghost predicate FirstReport(run: seq<Action>, id: nat, k: nat) {
    && k < |run| && run[k].id == id && ReportsSomething(run[k])
    && forall j :: 0 <= j < k && run[j].id == id ==> !ReportsSomething(run[j])
  }

  ghost predicate NoReport(run: seq<Action>, id: nat) {
    forall j :: 0 <= j < |run| && run[j].id == id ==> !ReportsSomething(run[j])
  }

  lemma {:induction false} FirstTriggerIsFirstReport(run: seq<Action>, id: nat) returns (k: nat)
    ensures if FirstTrigger(run, id).None? then NoReport(run, id)
            else FirstReport(run, id, k) && Reports(run[k], FirstTrigger(run, id).value)
    decreases |run|
  {
    k := 0;
    if run == [] {
    } else {
      TriggersReport(run[0]);
      if run[0].id == id && Trigger(run[0]).Some? {
        TriggerReports(run[0], Trigger(run[0]).value);
      } else {
        var j := FirstTriggerIsFirstReport(run[1..], id);
        k := j + 1;
        assert forall i :: 0 < i < |run| ==> run[i] == run[1..][i - 1];
      }
    }
  }

  /**
   In any interleaving from the start: a trip none of whose steps reports is not finalized, any other is
   finalized once, with what its first reporting step reports.
   */
  lemma FinalizedWithFirstReport(run: seq<Action>, id: nat)
    requires IsRun(EMPTY, run) && id in Final(EMPTY, run).trips
    ensures var finals := Final(EMPTY, run).trips[id].finals;
            if finals == [] then NoReport(run, id)
            else |finals| == 1 && exists k: nat :: FirstReport(run, id, k) && Reports(run[k], finals[0])
  {
    assert forall l :: InFlight(EMPTY, l) == {};
    FinalizedOnceByFirstTrigger(EMPTY, run, id);
    var k := FirstTriggerIsFirstReport(run, id);
  }

  // ---- the code itself, kept in step with the system above ----

  class Transport {
    const maxBodyBytes: int
    var inFlight: map<string, int>
    var finalized: seq<(string, Outcome)>
    ghost var model: State

    ghost predicate Valid()
      reads this
    {
      model.gauge == inFlight
    }

    constructor (maxBodyBytes: int)
      ensures Valid() && this.maxBodyBytes == maxBodyBytes && model == EMPTY && finalized == []
    {
      this.maxBodyBytes := maxBodyBytes;
      inFlight, finalized, model := map[], [], EMPTY;
    }

    function Count(series: string): int
      reads this
    {
      if series in inFlight then inFlight[series] else 0
    }

    method Finalize(series: string, o: Outcome)
      modifies this`inFlight, this`finalized
      ensures inFlight == old(inFlight)[series := old(Count(series)) - 1]
      ensures finalized == old(finalized) + [(series, o)]
    {
      inFlight := inFlight[series := Count(series) - 1];
      finalized := finalized + [(series, o)];
    }

    /** One request: counted in flight until an error or a missing body ends it, or its body does. */
    method RoundTrip(ghost id: nat, series: string, response: Response, content: seq<byte>)
      returns (body: AuditedResponseBody?)
      requires Valid() && id !in model.trips
      modifies this
      ensures Valid() && model == Apply(Apply(old(model), Start(id, series)), Respond(id, response))
      ensures finalized == old(finalized)
                + (if response.HasBody? then [] else [(series, Trigger(Respond(id, response)).value)])
      ensures response.Error? ==> finalized == old(finalized) + [(series, TransportFailed)]
      ensures response.Nil? ==> finalized == old(finalized) + [(series, NilResponse)]
      ensures response.NoBody? ==> finalized == old(finalized) + [(series, MissingBody)]
      ensures body != null <==> response.HasBody?
      ensures body != null ==>
                && fresh(body) && fresh(body.reader) && fresh(body.reader.reader) && fresh(body.reader.capture)
                && body.transport == this && body.series == series && body.id == id && !body.done && body.InStep()
                && body.reader.Valid() && body.reader.reader.rest == content
                && body.reader.capture.maxBytes == maxBodyBytes
    {
      inFlight := inFlight[series := Count(series) + 1];
      model := Apply(model, Start(id, series));
      match response {
        case Error =>
          Finalize(series, TransportFailed);
          body := null;
        case Nil =>
          Finalize(series, NilResponse);
          body := null;
        case NoBody =>
          Finalize(series, MissingBody);
          body := null;
        case HasBody =>
          var inner := new BodyReader(content);
          var capture := new CapturingReadCloser(inner, maxBodyBytes);
          body := new AuditedResponseBody(id, this, series, capture);
      }
      model := Apply(model, Respond(id, response));
    }
  }

  class AuditedResponseBody {
    ghost const id: nat
    const transport: Transport
    const series: string
    const reader: CapturingReadCloser
    var done: bool

    /** The once is spent exactly when the system has finalized this trip. */
    ghost predicate InStep()
      reads this, transport
    {
      && transport.Valid()
      && id in transport.model.trips
      && transport.model.trips[id].phase.Streaming?
      && transport.model.trips[id].series == series
      && (done <==> transport.model.trips[id].finals != [])
    }

    constructor (ghost id: nat, transport: Transport, series: string, reader: CapturingReadCloser)
      ensures this.id == id && this.transport == transport && this.series == series && this.reader == reader && !done
    {
      this.id, this.transport, this.series, this.reader, this.done := id, transport, series, reader, false;
    }

    /** The once around finalize. */
    method RunFinalize(o: Outcome)
      requires InStep()
      modifies this`done, transport
      ensures InStep() && done
      ensures transport.model == FinalizeOnce(old(transport.model), id, o)
      ensures transport.finalized == old(transport.finalized) + (if old(done) then [] else [(series, o)])
    {
      if done {
        return;
      }
      done := true;
      transport.Finalize(series, o);
      transport.model := FinalizeOnce(transport.model, id, o);
    }

    /** Passes the bytes on, captures them, and finalizes on the first error or EOF. */
    method Read(n: nat, err: ReadError) returns (chunk: seq<byte>)
      requires InStep() && reader.Valid() && n <= |reader.reader.rest| && (err.EOF? ==> n == |reader.reader.rest|)
      modifies this`done, transport, reader.reader`rest, reader.capture
      ensures InStep() && reader.Valid()
      ensures chunk == old(reader.reader.rest)[..n] && reader.reader.rest == old(reader.reader.rest)[n..]
      ensures reader.capture.Stream == old(reader.capture.Stream) + chunk
      ensures done == (old(done) || !err.NoError?)
      ensures transport.model == Apply(old(transport.model), Action.Read(id, err))
      ensures transport.finalized == old(transport.finalized)
                + (if old(done) || err.NoError? then [] else [(series, Trigger(Action.Read(id, err)).value)])
      ensures err.EOF? && !old(done) ==> transport.finalized == old(transport.finalized) + [(series, ReachedEOF)]
      ensures err.Failed? && !old(done) ==> transport.finalized == old(transport.finalized) + [(series, ReadFailed)]
    {
      chunk := reader.Read(n, err);
      if !err.NoError? {
        if err.EOF? {
          RunFinalize(ReachedEOF);
        } else {
          RunFinalize(ReadFailed);
        }
      }
    }

    method Close(failed: bool)
      requires InStep()
      modifies this`done, transport, reader.reader`closed
      ensures InStep() && done && reader.reader.closed
      ensures transport.model == Apply(old(transport.model), Action.Close(id, failed))
      ensures transport.finalized == old(transport.finalized) + (if old(done) then [] else [(series, BodyClosed(failed))])
    {
      reader.reader.Close();
      RunFinalize(BodyClosed(failed));
    }
  }
}
