/**
 CreateNote, UpdateNote and DeleteNote calls by many clients, each call cut into its atomic halves:
 validation, the read, the weather lookup and the write interleave with those of every other call.
 */
module NotesCoherence {
  import opened Wrappers
  import opened NotesTable
  import opened NotesRepository
  import opened NotesService

  datatype Call =
    | Creating(v: CreateInput)                      // validated, before the lookup
    | CreateReady(create: CreateParams)             // before the INSERT
    | Reading(id: nat, input: UpdateInput)          // before the SELECT
    | LookingUp(current: Note, plan: UpdateParams)  // the location changed
    | UpdateReady(current: Note, plan: UpdateParams) // before the UPDATE
    | Deleting(id: nat)                             // before the DELETE
    | Returned(note: Note)
    | Deleted
    | Failed(error: ApiError)

  /** `lookups` records every answer of the weather client, with the query it was asked. */
  datatype State = State(
    table: Table,
    births: map<nat, int>,
    lookups: set<(string, Weather, string)>,
    calls: map<nat, Call>)

  datatype Action =
    | StartCreate(call: nat, create: CreateInput)
    | StartUpdate(call: nat, id: nat, update: UpdateInput)
    | StartDelete(call: nat, id: nat)
    | Read(call: nat)
    | Lookup(call: nat, reply: WeatherReply)
    | Write(call: nat, newId: nat, now: int)

  predicate Enabled(s: State, a: Action) {
    match a
    case StartCreate(c, _) => c !in s.calls
    case StartUpdate(c, _, _) => c !in s.calls
    case StartDelete(c, _) => c !in s.calls
    case Read(c) => c in s.calls && s.calls[c].Reading?
    case Lookup(c, _) => c in s.calls && (s.calls[c].Creating? || s.calls[c].LookingUp?)
    case Write(c, newId, now) =>
      && c in s.calls && Writes(s.calls[c])
      && (s.calls[c].CreateReady? ==> newId !in s.births && Key(now, newId).Valid())
  }

  function Move(s: State, c: nat, call: Call): State {
    s.(calls := s.calls[c := call])
  }

  function AfterRead(t: Table, id: nat, input: UpdateInput): Call {
    if id !in t then Failed(NotFound)
    else
      var plan := PlanUpdate(t[id], input);
      if plan.Err? then Failed(plan.error)
      else if NeedsLookup(t[id], plan.value) then LookingUp(t[id], plan.value)
      else UpdateReady(t[id], plan.value)
  }

  function QueryOf(call: Call): string
    requires call.Creating? || call.LookingUp?
  {
    if call.Creating? then call.v.location else call.plan.locationQuery
  }

  function AfterLookup(call: Call, found: (Weather, string)): Call
    requires call.Creating? || call.LookingUp?
  {
    if call.Creating? then CreateReady(CreateWith(call.v, found))
    else UpdateReady(call.current, UpdateWith(call.plan, found))
  }

  predicate Writes(call: Call) {
    call.CreateReady? || call.UpdateReady? || call.Deleting?
  }

  function TableAfterWrite(t: Table, call: Call, newId: nat, now: int): Table
    requires Writes(call)
  {
    match call
    case CreateReady(p) => AfterInsert(t, p, newId, now)
    case UpdateReady(_, p) => AfterUpdate(t, p, now)
    case Deleting(id) => AfterDelete(t, id)
  }

  function CallAfterWrite(t: Table, call: Call, newId: nat, now: int): Call
    requires Writes(call)
  {
    match call
    case CreateReady(p) =>
      if Checks(NewRow(p, newId, now)) then Returned(NewRow(p, newId, now)) else Failed(Internal)
    case UpdateReady(current, p) =>
      if p.id !in t then Failed(NotFound)
      else if Checks(UpdatedRow(t[p.id], p, now)) then Returned(UpdateResponse(current, p, now))
      else Failed(Internal)
    case Deleting(id) => if id in t then Deleted else Failed(NotFound)
  }

  /** One statement: the generated id counts as used even when a constraint rejects the row. */
  function ApplyWrite(s: State, c: nat, newId: nat, now: int): State
    requires Enabled(s, Write(c, newId, now))
  {
    var call := s.calls[c];
    State(TableAfterWrite(s.table, call, newId, now),
          if call.CreateReady? then s.births[newId := now] else s.births,
          s.lookups,
          s.calls[c := CallAfterWrite(s.table, call, newId, now)])
  }

  function Apply(s: State, a: Action): State
    requires Enabled(s, a)
  {
    match a
    case StartCreate(c, input) =>
      var v := ValidateCreate(input);
      Move(s, c, if v.Err? then Failed(v.error) else Creating(v.value))
    case StartUpdate(c, id, input) =>
      Move(s, c, if IsEmptyUpdate(input) then Failed(EmptyUpdate) else Reading(id, input))
    case StartDelete(c, id) => Move(s, c, Deleting(id))
    case Read(c) => Move(s, c, AfterRead(s.table, s.calls[c].id, s.calls[c].input))
    case Lookup(c, reply) =>
      var found := ResolveWeather(reply);
      if found.Err? then Move(s, c, Failed(found.error))
      else Move(s, c, AfterLookup(s.calls[c], found.value)).(
        lookups := s.lookups + {(QueryOf(s.calls[c]), found.value.0, found.value.1)})
    case Write(c, newId, now) => ApplyWrite(s, c, newId, now)
  }

  predicate IsRun(s: State, run: seq<Action>)
    decreases |run|
  {
    run == [] || (Enabled(s, run[0]) && IsRun(Apply(s, run[0]), run[1..]))
  }

  function Final(s: State, run: seq<Action>): State
    requires IsRun(s, run)
    decreases |run|
  {
    if run == [] then s else Final(Apply(s, run[0]), run[1..])
  }

  // ---- the invariant ----

  predicate GoodTexts(title: string, body: string, location: string) {
    GoodText(title, MAX_TITLE_LENGTH) && GoodText(body, MAX_BODY_LENGTH) && GoodText(location, MAX_LOCATION_LENGTH)
  }

  /** Good texts, and weather and place from one lookup of the row's own location query. */
  predicate CoherentNote(s: State, n: Note) {
    GoodTexts(n.title, n.body, n.locationQuery) && (n.locationQuery, n.weather, n.resolvedLocation) in s.lookups
  }

  predicate CoherentPlan(s: State, p: UpdateParams) {
    GoodTexts(p.title, p.body, p.locationQuery) && (p.locationQuery, p.weather, p.resolvedLocation) in s.lookups
  }

  predicate Born(s: State, id: nat, createdAt: int) {
    id in s.births && s.births[id] == createdAt
  }

  predicate CallInv(s: State, call: Call) {
    match call
    case Creating(v) => GoodTexts(v.title, v.body, v.location)
    case Reading(_, input) => !IsEmptyUpdate(input)
    case CreateReady(p) =>
      && GoodTexts(p.title, p.body, p.locationQuery)
      && (p.locationQuery, p.weather, p.resolvedLocation) in s.lookups
    case LookingUp(current, p) =>
      GoodTexts(p.title, p.body, p.locationQuery) && p.id == current.id && Born(s, current.id, current.createdAt)
    case UpdateReady(current, p) =>
      CoherentPlan(s, p) && p.id == current.id && Born(s, current.id, current.createdAt)
    case _ => true
  }

  ghost predicate TableInv(s: State) {
    forall id :: id in s.table ==>
      s.table[id].id == id && Born(s, id, s.table[id].createdAt) && CoherentNote(s, s.table[id])
  }

  ghost predicate Inv(s: State) {
    TableInv(s) && forall c :: c in s.calls ==> CallInv(s, s.calls[c])
  }

  /** History only grows, so what was coherent stays so. */
  predicate Grows(s: State, t: State) {
    s.lookups <= t.lookups && forall id :: id in s.births ==> Born(t, id, s.births[id])
  }

  lemma CallsStayGood(s: State, t: State, c: nat, call: Call)
    requires Inv(s) && Grows(s, t) && t.calls == s.calls[c := call] && CallInv(t, call)
    ensures forall d :: d in t.calls ==> CallInv(t, t.calls[d])
  {
  }

  lemma GoodCreate(input: CreateInput)
    ensures ValidateCreate(input).Ok? ==>
              var v := ValidateCreate(input).value; GoodTexts(v.title, v.body, v.location)
  {
    ValidateRequiredExact(input.title, Title, MAX_TITLE_LENGTH);
    ValidateRequiredExact(input.body, Body, MAX_BODY_LENGTH);
    ValidateRequiredExact(input.location, Location, MAX_LOCATION_LENGTH);
  }

  lemma GoodOr(input: Option<string>, current: string, field: Field, maxLength: nat)
    requires GoodText(current, maxLength) && maxLength > 0
    ensures ValidateOr(input, current, field, maxLength).Ok? ==>
              GoodText(ValidateOr(input, current, field, maxLength).value, maxLength)
  {
    if input.Some? {
      ValidateRequiredExact(input.value, field, maxLength);
    }
  }

  lemma GoodRead(s: State, id: nat, input: UpdateInput)
    requires TableInv(s)
    ensures CallInv(s, AfterRead(s.table, id, input))
  {
    if id in s.table {
      var current := s.table[id];
      GoodOr(input.title, current.title, Title, MAX_TITLE_LENGTH);
      GoodOr(input.body, current.body, Body, MAX_BODY_LENGTH);
      GoodOr(input.location, current.locationQuery, Location, MAX_LOCATION_LENGTH);
    }
  }

  lemma InsertKeepsTable(s: State, p: CreateParams, id: nat, now: int)
    requires TableInv(s) && CallInv(s, CreateReady(p)) && id !in s.births
    ensures TableInv(s.(table := AfterInsert(s.table, p, id, now), births := s.births[id := now]))
  {
  }

  lemma UpdateKeepsTable(s: State, p: UpdateParams, now: int)
    requires TableInv(s) && CoherentPlan(s, p)
    ensures TableInv(s.(table := AfterUpdate(s.table, p, now)))
  {
  }

  /** The row invariants look at the table, the births and the lookups only. */
  lemma TableInvIgnoresCalls(s: State, t: State)
    requires TableInv(s) && t.table == s.table && t.births == s.births && t.lookups == s.lookups
    ensures TableInv(t)
  {
  }

  lemma WriteKeepsTable(s: State, c: nat, newId: nat, now: int)
    requires Inv(s) && Enabled(s, Write(c, newId, now))
    ensures TableInv(ApplyWrite(s, c, newId, now))
  {
    assert CallInv(s, s.calls[c]);
    var t := ApplyWrite(s, c, newId, now);
    match s.calls[c]
    case CreateReady(p) =>
      InsertKeepsTable(s, p, newId, now);
      TableInvIgnoresCalls(s.(table := AfterInsert(s.table, p, newId, now), births := s.births[newId := now]), t);
    case UpdateReady(_, p) =>
      UpdateKeepsTable(s, p, now);
      TableInvIgnoresCalls(s.(table := AfterUpdate(s.table, p, now)), t);
    case Deleting(id) =>
  }

  lemma StartKeepsInv(s: State, a: Action)
    requires Inv(s) && Enabled(s, a) && (a.StartCreate? || a.StartUpdate? || a.StartDelete?)
    ensures Inv(Apply(s, a)) && Grows(s, Apply(s, a))
  {
    if a.StartCreate? {
      GoodCreate(a.create);
    }
    CallsStayGood(s, Apply(s, a), a.call, Apply(s, a).calls[a.call]);
  }

  lemma LookupKeepsInv(s: State, c: nat, reply: WeatherReply)
    requires Inv(s) && Enabled(s, Lookup(c, reply))
    ensures Inv(Apply(s, Lookup(c, reply))) && Grows(s, Apply(s, Lookup(c, reply)))
  {
    var t := Apply(s, Lookup(c, reply));
    assert CallInv(s, s.calls[c]);
    CallsStayGood(s, t, c, t.calls[c]);
  }

  lemma WriteKeepsInv(s: State, c: nat, newId: nat, now: int)
    requires Inv(s) && Enabled(s, Write(c, newId, now))
    ensures Inv(ApplyWrite(s, c, newId, now)) && Grows(s, ApplyWrite(s, c, newId, now))
  {
    var t := ApplyWrite(s, c, newId, now);
    WriteKeepsTable(s, c, newId, now);
    assert Grows(s, t);
    CallsStayGood(s, t, c, CallAfterWrite(s.table, s.calls[c], newId, now));
  }

  lemma StepKeepsInv(s: State, a: Action)
    requires Inv(s) && Enabled(s, a)
    ensures Inv(Apply(s, a)) && Grows(s, Apply(s, a))
  {
    match a
    case StartCreate(_, _) => StartKeepsInv(s, a);
    case StartUpdate(_, _, _) => StartKeepsInv(s, a);
    case StartDelete(_, _) => StartKeepsInv(s, a);
    case Read(c) =>
      GoodRead(s, s.calls[c].id, s.calls[c].input);
      CallsStayGood(s, Apply(s, a), c, Apply(s, a).calls[c]);
    case Lookup(c, reply) => LookupKeepsInv(s, c, reply);
    case Write(c, newId, now) => WriteKeepsInv(s, c, newId, now);
  }

  lemma {:induction false} RunKeepsInv(s: State, run: seq<Action>)
    requires Inv(s) && IsRun(s, run)
    ensures Inv(Final(s, run)) && Grows(s, Final(s, run))
    decreases |run|
  {
    if run == [] {
    } else {
      StepKeepsInv(s, run[0]);
      RunKeepsInv(Apply(s, run[0]), run[1..]);
    }
  }

  const EMPTY := State(map[], map[], {}, map[])

  /**
   However calls interleave, every stored note has trimmed, non-empty texts within their lengths, and
   weather and resolved location from one answer to its own location query.
   */
  lemma StoredNotesStayCoherent(run: seq<Action>, id: nat)
    requires IsRun(EMPTY, run) && id in Final(EMPTY, run).table
    ensures CoherentNote(Final(EMPTY, run), Final(EMPTY, run).table[id])
    ensures Final(EMPTY, run).table[id].id == id
  {
    RunKeepsInv(EMPTY, run);
  }

  /** From any reachable point on, a note that is still there has the creation time it had. */
  lemma IdentityNeverChanges(before: seq<Action>, after: seq<Action>, id: nat)
    requires IsRun(EMPTY, before) && IsRun(Final(EMPTY, before), after)
    requires id in Final(EMPTY, before).table && id in Final(Final(EMPTY, before), after).table
    ensures var row, later := Final(EMPTY, before).table[id], Final(Final(EMPTY, before), after).table[id];
            KeyOf(later) == KeyOf(row)
  {
    RunKeepsInv(EMPTY, before);
    RunKeepsInv(Final(EMPTY, before), after);
    assert Born(Final(EMPTY, before), id, Final(EMPTY, before).table[id].createdAt);
  }

  /** A call that returns a note returns the row as its own write left it, whatever happened since its read. */
  lemma WriteReturnsStoredRow(run: seq<Action>, c: nat, newId: nat, now: int)
    requires IsRun(EMPTY, run) && Enabled(Final(EMPTY, run), Write(c, newId, now))
    requires Apply(Final(EMPTY, run), Write(c, newId, now)).calls[c].Returned?
    ensures var t := Apply(Final(EMPTY, run), Write(c, newId, now));
            var note := t.calls[c].note;
            note.id in t.table && t.table[note.id] == note
  {
    RunKeepsInv(EMPTY, run);
    assert CallInv(Final(EMPTY, run), Final(EMPTY, run).calls[c]);
  }

  // ---- a call that nobody interrupts is the service's method ----

  lemma RunOfCons(s: State, a: Action, rest: seq<Action>)
    requires Enabled(s, a) && IsRun(Apply(s, a), rest)
    ensures IsRun(s, [a] + rest) && Final(s, [a] + rest) == Final(Apply(s, a), rest)
  {
    assert ([a] + rest)[1..] == rest;
  }

  lemma RunOfTwo(s: State, a: Action, b: Action)
    requires Enabled(s, a) && Enabled(Apply(s, a), b)
    ensures IsRun(s, [a, b]) && Final(s, [a, b]) == Apply(Apply(s, a), b)
  {
    RunOfCons(Apply(s, a), b, []);
    RunOfCons(s, a, [b]);
    assert [a] + [b] == [a, b] && [b] + [] == [b];
  }

  predicate OnlyCall(run: seq<Action>, c: nat) {
    forall i :: 0 <= i < |run| ==> run[i].call == c
  }

  /** The call has ended with this result, and the table is what the result says. */
  predicate EndedAs(before: Table, t: State, c: nat, r: Result<Note, ApiError>, id: nat) {
    && c in t.calls && t.calls[c] == (if r.Ok? then Returned(r.value) else Failed(r.error))
    && t.table == (if r.Ok? then before[id := r.value] else before)
  }

  lemma CreateAloneIsTheMethod(s: State, c: nat, input: CreateInput, reply: WeatherReply, id: nat, now: int)
    returns (run: seq<Action>)
    requires c !in s.calls && id !in s.births && Key(now, id).Valid()
    ensures IsRun(s, run) && OnlyCall(run, c)
    ensures EndedAs(s.table, Final(s, run), c, CreateOutcome(input, reply, id, now), id)
  {
    var start, look, write := StartCreate(c, input), Lookup(c, reply), Write(c, id, now);
    var started := Apply(s, start);
    if !started.calls[c].Creating? {
      run := [start];
      RunOfCons(s, start, []);
    } else if !Apply(started, look).calls[c].CreateReady? {
      run := [start, look];
      RunOfTwo(s, start, look);
    } else {
      RunOfTwo(started, look, write);
      RunOfCons(s, start, [look, write]);
      run := [start] + [look, write];
    }
  }

  lemma WritesAlone(s: State, c: nat, current: Note, p: UpdateParams, now: int)
    requires c in s.calls && s.calls[c] == UpdateReady(current, p) && p.id == current.id
    requires current.id in s.table && s.table[current.id] == current
    ensures EndedAs(s.table, Apply(s, Write(c, 0, now)), c,
              if Checks(UpdatedRow(current, p, now)) then Ok(UpdateResponse(current, p, now)) else Err(Internal), current.id)
  {
  }

  /** The lookup, when there is one, and the write, from the moment the row has been read. */
  lemma FinishesAlone(s: State, c: nat, id: nat, input: UpdateInput, reply: WeatherReply, now: int)
    returns (run: seq<Action>)
    requires c in s.calls && s.calls[c] == AfterRead(s.table, id, input) && !IsEmptyUpdate(input)
    requires id in s.table ==> s.table[id].id == id
    ensures IsRun(s, run) && OnlyCall(run, c)
    ensures EndedAs(s.table, Final(s, run), c, UpdateOutcome(s.table, id, input, reply, now), id)
  {
    if s.calls[c].UpdateReady? {
      WritesAlone(s, c, s.table[id], s.calls[c].plan, now);
      run := [Write(c, 0, now)];
      RunOfCons(s, Write(c, 0, now), []);
    } else if s.calls[c].LookingUp? {
      var t := Apply(s, Lookup(c, reply));
      if t.calls[c].UpdateReady? {
        WritesAlone(t, c, s.table[id], t.calls[c].plan, now);
        run := [Lookup(c, reply), Write(c, 0, now)];
        RunOfTwo(s, Lookup(c, reply), Write(c, 0, now));
      } else {
        run := [Lookup(c, reply)];
        RunOfCons(s, Lookup(c, reply), []);
      }
    } else {
      run := [];
    }
  }

  lemma UpdateAloneIsTheMethod(s: State, c: nat, id: nat, input: UpdateInput, reply: WeatherReply, now: int)
    returns (run: seq<Action>)
    requires c !in s.calls && (id in s.table ==> s.table[id].id == id)
    ensures IsRun(s, run) && OnlyCall(run, c)
    ensures EndedAs(s.table, Final(s, run), c, UpdateOutcome(s.table, id, input, reply, now), id)
  {
    var started := Apply(s, StartUpdate(c, id, input));
    if IsEmptyUpdate(input) {
      run := [StartUpdate(c, id, input)];
      RunOfCons(s, StartUpdate(c, id, input), []);
    } else {
      var rest := FinishesAlone(Apply(started, Read(c)), c, id, input, reply, now);
      RunOfCons(started, Read(c), rest);
      RunOfCons(s, StartUpdate(c, id, input), [Read(c)] + rest);
      run := [StartUpdate(c, id, input)] + ([Read(c)] + rest);
    }
  }
}
