/** What a stored note has to do with the request that created or changed it, said from the request alone. */
module NotesInputs {
  import opened Wrappers
  import opened Text
  import opened NotesTable
  import opened NotesRepository
  import opened NotesService
  import opened NotesCoherence

  // ---- texts ----

  /** The text is there and not too long once its blank ends are cut. */
  predicate Accepted(value: string, maxLength: nat) {
    0 < |TrimSpace(value)| <= maxLength
  }

  lemma TextVerdict(value: string, field: Field, maxLength: nat)
    requires maxLength > 0
    ensures var r := ValidateRequired(value, field, maxLength);
            && (Accepted(value, maxLength) ==> r == Ok(TrimSpace(value)))
            && (TrimSpace(value) == "" ==> r == Err(Required(field)))
            && (|TrimSpace(value)| > maxLength ==> r == Err(TooLong(field)))
    ensures Accepted(value, maxLength) ==> GoodText(TrimSpace(value), maxLength)
  {
    var left, right := TrimSpaceCutsBlankEnds(value);
  }

  lemma GoodTextIsNotBlank(s: string, maxLength: nat)
    requires GoodText(s, maxLength)
    ensures NotBlank(s)
  {
    assert s[0] != ' ';
  }

  /** The column checks on what the weather client answered. */
  predicate AnswerStorable(weather: Weather, place: string) {
    NotBlank(place) && NotBlank(weather.provider) && NotBlank(weather.condition) && -150.0 <= weather.temperatureC <= 150.0
  }

  lemma ChecksOfGoodNote(n: Note)
    requires GoodTexts(n.title, n.body, n.locationQuery)
    ensures Checks(n) <==> AnswerStorable(n.weather, n.resolvedLocation) && n.updatedAt >= n.createdAt
  {
    GoodTextIsNotBlank(n.title, MAX_TITLE_LENGTH);
    GoodTextIsNotBlank(n.body, MAX_BODY_LENGTH);
    GoodTextIsNotBlank(n.locationQuery, MAX_LOCATION_LENGTH);
  }

  // ---- one create call ----

  predicate CreateAccepted(input: CreateInput) {
    Accepted(input.title, 200) && Accepted(input.body, 10000) && Accepted(input.location, 200)
  }

  lemma ValidatedCreate(input: CreateInput)
    ensures CreateAccepted(input) ==>
              ValidateCreate(input)
              == Ok(CreateInput(TrimSpace(input.title), TrimSpace(input.body), TrimSpace(input.location)))
    ensures !CreateAccepted(input) ==> ValidateCreate(input).Err?
    ensures CreateAccepted(input) ==>
              GoodTexts(TrimSpace(input.title), TrimSpace(input.body), TrimSpace(input.location))
  {
    TextVerdict(input.title, Title, MAX_TITLE_LENGTH);
    TextVerdict(input.body, Body, MAX_BODY_LENGTH);
    TextVerdict(input.location, Location, MAX_LOCATION_LENGTH);
  }

  /** The note that this request and this answer of the weather client make. */
  function NoteOf(input: CreateInput, weather: Weather, place: string, id: nat, now: int): Note {
    Note(id, TrimSpace(input.title), TrimSpace(input.body), TrimSpace(input.location), place, weather, now, now)
  }

  /**
   A create call succeeds if and only if its three trimmed texts are there and short enough, the weather
   client found the place, and its answer passes the column checks; the note is then the trimmed texts,
   each in its own column, with that answer, and both times are now.
   */
  lemma CreateStoresItsInput(input: CreateInput, reply: WeatherReply, id: nat, now: int)
    ensures CreateOutcome(input, reply, id, now).Ok?
            <==> CreateAccepted(input) && reply.Found? && AnswerStorable(reply.weather, reply.location)
    ensures CreateOutcome(input, reply, id, now).Ok? ==>
              CreateOutcome(input, reply, id, now).value == NoteOf(input, reply.weather, reply.location, id, now)
  {
    ValidatedCreate(input);
    if CreateAccepted(input) && reply.Found? {
      ChecksOfGoodNote(NoteOf(input, reply.weather, reply.location, id, now));
    }
  }

  /** The first field that is wrong is reported; after the fields, what the weather client said. */
  lemma CreateReportsFirstProblem(input: CreateInput, reply: WeatherReply, id: nat, now: int)
    ensures var r := CreateOutcome(input, reply, id, now);
            if TrimSpace(input.title) == "" then r == Err(Required(Title))
            else if |TrimSpace(input.title)| > 200 then r == Err(TooLong(Title))
            else if TrimSpace(input.body) == "" then r == Err(Required(Body))
            else if |TrimSpace(input.body)| > 10000 then r == Err(TooLong(Body))
            else if TrimSpace(input.location) == "" then r == Err(Required(Location))
            else if |TrimSpace(input.location)| > 200 then r == Err(TooLong(Location))
            else reply == UnknownLocation <==> r == Err(LocationNotFound)
    ensures CreateAccepted(input) ==>
              && (reply == DeadlineExceeded <==> CreateOutcome(input, reply, id, now) == Err(WeatherTimeout))
              && (reply == UpstreamError || reply == DecodeError
                  <==> CreateOutcome(input, reply, id, now) == Err(WeatherUpstream))
              && (reply == RequestFailed <==> CreateOutcome(input, reply, id, now) == Err(WeatherFailed))
              && (reply.Found? && !AnswerStorable(reply.weather, reply.location)
                  <==> CreateOutcome(input, reply, id, now) == Err(Internal))
  {
    TextVerdict(input.title, Title, MAX_TITLE_LENGTH);
    TextVerdict(input.body, Body, MAX_BODY_LENGTH);
    TextVerdict(input.location, Location, MAX_LOCATION_LENGTH);
    CreateStoresItsInput(input, reply, id, now);
  }

  // ---- one update call ----

  /** The text an update leaves in a field. */
  function FieldAfter(given: Option<string>, current: string): string {
    if given.Some? then TrimSpace(given.value) else current
  }

  predicate GivenAccepted(given: Option<string>, maxLength: nat) {
    given.Some? ==> Accepted(given.value, maxLength)
  }

  predicate UpdateAccepted(input: UpdateInput) {
    GivenAccepted(input.title, 200) && GivenAccepted(input.body, 10000) && GivenAccepted(input.location, 200)
  }

  lemma FieldVerdict(given: Option<string>, current: string, field: Field, maxLength: nat)
    requires maxLength > 0
    ensures var r := ValidateOr(given, current, field, maxLength);
            if GivenAccepted(given, maxLength) then r == Ok(FieldAfter(given, current)) else r.Err?
  {
    if given.Some? {
      TextVerdict(given.value, field, maxLength);
    }
  }

  predicate Moves(row: Note, input: UpdateInput) {
    FieldAfter(input.location, row.locationQuery) != row.locationQuery
  }

  /** What the update writes: each given field trimmed, the others as read, the answer if the note moves. */
  function ParamsOf(row: Note, input: UpdateInput, weather: Weather, place: string): UpdateParams {
    UpdateParams(row.id, FieldAfter(input.title, row.title), FieldAfter(input.body, row.body),
                 FieldAfter(input.location, row.locationQuery),
                 if Moves(row, input) then place else row.resolvedLocation,
                 if Moves(row, input) then weather else row.weather)
  }

  lemma PlanIsTheInput(row: Note, input: UpdateInput)
    ensures UpdateAccepted(input) ==> PlanUpdate(row, input) == Ok(ParamsOf(row, input, row.weather, row.resolvedLocation))
    ensures !UpdateAccepted(input) ==> PlanUpdate(row, input).Err?
    ensures UpdateAccepted(input) ==> (NeedsLookup(row, PlanUpdate(row, input).value) <==> Moves(row, input))
  {
    FieldVerdict(input.title, row.title, Title, MAX_TITLE_LENGTH);
    FieldVerdict(input.body, row.body, Body, MAX_BODY_LENGTH);
    FieldVerdict(input.location, row.locationQuery, Location, MAX_LOCATION_LENGTH);
  }

  /**
   For any combination of given fields: the update goes to its write if and only if every given text is there
   and short enough and, when the note moves, the place was found; and then it writes exactly these texts
   and, when the note moves, the client's own answer.
   */
  lemma UpdateWritesItsInput(row: Note, input: UpdateInput, reply: WeatherReply)
    ensures var r := PlanWithLookup(row, input, reply);
            && (r.Ok? <==> UpdateAccepted(input) && (Moves(row, input) ==> reply.Found?))
            && (r.Ok? ==> if Moves(row, input) then r.value == ParamsOf(row, input, reply.weather, reply.location)
                          else r.value == ParamsOf(row, input, row.weather, row.resolvedLocation))
  {
    PlanIsTheInput(row, input);
  }

  /** The note an update makes of the row it read. */
  function NoteAfter(row: Note, input: UpdateInput, weather: Weather, place: string, now: int): Note {
    Note(row.id, FieldAfter(input.title, row.title), FieldAfter(input.body, row.body),
         FieldAfter(input.location, row.locationQuery),
         if Moves(row, input) then place else row.resolvedLocation,
         if Moves(row, input) then weather else row.weather,
         row.createdAt, now)
  }

  /** An uninterrupted update, from the stored row, the request and the client's answer alone. */
  lemma UpdateStoresItsInput(t: Table, id: nat, input: UpdateInput, reply: WeatherReply, now: int)
    requires Valid(t)
    ensures var r := UpdateOutcome(t, id, input, reply, now);
            && (IsEmptyUpdate(input) ==> r == Err(EmptyUpdate))
            && (!IsEmptyUpdate(input) && id !in t ==> r == Err(NotFound))
            && (!IsEmptyUpdate(input) && id in t ==>
                  var note := if Moves(t[id], input) && reply.Found?
                              then NoteAfter(t[id], input, reply.weather, reply.location, now)
                              else NoteAfter(t[id], input, t[id].weather, t[id].resolvedLocation, now);
                  && (r.Ok? <==> UpdateAccepted(input) && (Moves(t[id], input) ==> reply.Found?) && Checks(note))
                  && (r.Ok? ==> r.value == note))
  {
    if id in t {
      UpdateWritesItsInput(t[id], input, reply);
    }
  }

  // ---- create calls among others ----

  /** The input call `c` was started with. */
  function StartedWith(run: seq<Action>, c: nat): Option<CreateInput> {
    if run == [] then None
    else if run[0].call == c && run[0].StartCreate? then Some(run[0].create)
    else StartedWith(run[1..], c)
  }

  /** What the weather client answered call `c`. */
  function Answered(run: seq<Action>, c: nat): Option<WeatherReply> {
    if run == [] then None
    else if run[0].call == c && run[0].Lookup? then Some(run[0].reply)
    else Answered(run[1..], c)
  }

  /** The id and the time call `c` got at its INSERT. */
  function Inserted(run: seq<Action>, c: nat): Option<(nat, int)> {
    if run == [] then None
    else if run[0].call == c && run[0].Write? then Some((run[0].newId, run[0].now))
    else Inserted(run[1..], c)
  }

  lemma {:induction false} EndedStays(s: State, run: seq<Action>, c: nat)
    requires IsRun(s, run) && c in s.calls && (s.calls[c].Returned? || s.calls[c].Failed?)
    ensures c in Final(s, run).calls && Final(s, run).calls[c] == s.calls[c]
    decreases |run|
  {
    if run == [] {
    } else {
      EndedStays(Apply(s, run[0]), run[1..], c);
    }
  }

  /** From a create call that is ready to insert. */
  lemma {:induction false} InsertsItsParams(s: State, run: seq<Action>, c: nat)
    requires IsRun(s, run) && c in s.calls && s.calls[c].CreateReady?
    ensures c in Final(s, run).calls
    ensures Final(s, run).calls[c].Returned? ==>
              && Inserted(run, c).Some?
              && Final(s, run).calls[c].note == NewRow(s.calls[c].create, Inserted(run, c).value.0, Inserted(run, c).value.1)
    decreases |run|
  {
    if run == [] {
    } else if run[0].call == c {
      EndedStays(Apply(s, run[0]), run[1..], c);
    } else {
      InsertsItsParams(Apply(s, run[0]), run[1..], c);
    }
  }

  /** From a create call whose texts are validated. */
  lemma {:induction false} LooksUpItsLocation(s: State, run: seq<Action>, c: nat)
    requires IsRun(s, run) && c in s.calls && s.calls[c].Creating?
    ensures c in Final(s, run).calls
    ensures Final(s, run).calls[c].Returned? ==>
              && Inserted(run, c).Some? && Answered(run, c).Some? && Answered(run, c).value.Found?
              && var v, w := s.calls[c].v, Answered(run, c).value;
                 && Final(s, run).calls[c].note
                    == NewRow(CreateParams(v.title, v.body, v.location, w.location, w.weather),
                              Inserted(run, c).value.0, Inserted(run, c).value.1)
                 && (v.location, w.weather, w.location) in Final(s, run).lookups
    decreases |run|
  {
    if run == [] {
    } else if run[0].call == c {
      var t := Apply(s, run[0]);
      if t.calls[c].CreateReady? {
        InsertsItsParams(t, run[1..], c);
        LookupsStay(t, run[1..]);
      } else {
        EndedStays(t, run[1..], c);
      }
    } else {
      LooksUpItsLocation(Apply(s, run[0]), run[1..], c);
    }
  }

  lemma {:induction false} LookupsStay(s: State, run: seq<Action>)
    requires IsRun(s, run)
    ensures s.lookups <= Final(s, run).lookups
    decreases |run|
  {
    if run == [] {
    } else {
      LookupsStay(Apply(s, run[0]), run[1..]);
    }
  }

  /**
   However calls interleave, a create call that returns has asked the weather client for the trimmed location
   of its own request, and returns the note of its own request, of that answer and of its own INSERT.
   */
  lemma {:induction false} CreateReturnsItsInput(s: State, run: seq<Action>, c: nat, input: CreateInput)
    requires IsRun(s, run) && c !in s.calls && StartedWith(run, c) == Some(input)
    requires c in Final(s, run).calls && Final(s, run).calls[c].Returned?
    ensures CreateAccepted(input)
    ensures Inserted(run, c).Some? && Answered(run, c).Some? && Answered(run, c).value.Found?
    ensures var w := Answered(run, c).value;
            && Final(s, run).calls[c].note
               == NoteOf(input, w.weather, w.location, Inserted(run, c).value.0, Inserted(run, c).value.1)
            && (TrimSpace(input.location), w.weather, w.location) in Final(s, run).lookups
    decreases |run|
  {
    var t := Apply(s, run[0]);
    if run[0].call == c {
      StartsAreFirst(s, run, c);
      ValidatedCreate(input);
      if t.calls[c].Creating? {
        LooksUpItsLocation(t, run[1..], c);
      } else {
        EndedStays(t, run[1..], c);
      }
    } else {
      CreateReturnsItsInput(t, run[1..], c, input);
    }
  }

  /** Before its start a call takes no step, and it is started once. */
  lemma StartsAreFirst(s: State, run: seq<Action>, c: nat)
    requires IsRun(s, run) && run != [] && run[0].call == c && c !in s.calls
    ensures run[0].StartCreate? || run[0].StartUpdate? || run[0].StartDelete?
    ensures !run[0].StartCreate? ==> StartedWith(run, c) == None
  {
    if !run[0].StartCreate? {
      NoSecondStart(Apply(s, run[0]), run[1..], c);
    }
  }

  lemma {:induction false} NoSecondStart(s: State, run: seq<Action>, c: nat)
    requires IsRun(s, run) && c in s.calls
    ensures StartedWith(run, c) == None
    decreases |run|
  {
    if run == [] {
    } else {
      NoSecondStart(Apply(s, run[0]), run[1..], c);
    }
  }
}
