/** What an update keeps and loses when other calls run between its unlocked read and its write. */
module InterruptedUpdates {
  import opened Wrappers
  import opened Text
  import opened NotesTable
  import opened NotesRepository
  import opened NotesService
  import opened NotesCoherence
  import opened NotesInputs

  /** Any steps of other calls, and of call `c` nothing but its weather lookup. */
  predicate Between(mid: seq<Action>, c: nat) {
    forall i :: 0 <= i < |mid| && mid[i].call == c ==> mid[i].Lookup?
  }

  /** An update call from its read to its write. */
  function Interrupted(c: nat, mid: seq<Action>, newId: nat, now: int): seq<Action> {
    [Read(c)] + (mid + [Write(c, newId, now)])
  }

  // ---- runs ----

  lemma {:induction false} RunSplits(s: State, first: seq<Action>, second: seq<Action>)
    requires IsRun(s, first + second)
    ensures IsRun(s, first) && IsRun(Final(s, first), second)
    ensures Final(s, first + second) == Final(Final(s, first), second)
    decreases |first|
  {
    if first == [] {
      assert [] + second == second;
    } else {
      assert (first + second)[1..] == first[1..] + second;
      RunSplits(Apply(s, first[0]), first[1..], second);
    }
  }

  lemma {:induction false} RunsJoin(s: State, first: seq<Action>, second: seq<Action>)
    requires IsRun(s, first) && IsRun(Final(s, first), second)
    ensures IsRun(s, first + second) && Final(s, first + second) == Final(Final(s, first), second)
    decreases |first|
  {
    if first == [] {
      assert [] + second == second;
    } else {
      assert (first + second)[1..] == first[1..] + second;
      RunsJoin(Apply(s, first[0]), first[1..], second);
    }
  }

  lemma InterruptedSplits(s: State, c: nat, mid: seq<Action>, newId: nat, now: int)
    requires IsRun(s, Interrupted(c, mid, newId, now))
    ensures Enabled(s, Read(c)) && IsRun(Apply(s, Read(c)), mid)
    ensures var t := Final(Apply(s, Read(c)), mid);
            && Enabled(t, Write(c, newId, now))
            && Final(s, Interrupted(c, mid, newId, now)) == Apply(t, Write(c, newId, now))
  {
    var rest := mid + [Write(c, newId, now)];
    assert Interrupted(c, mid, newId, now)[1..] == rest;
    RunSplits(Apply(s, Read(c)), mid, [Write(c, newId, now)]);
    assert [Write(c, newId, now)][1..] == [];
  }

  /** The table right before the write. */
  function TableBefore(s: State, c: nat, mid: seq<Action>): Table
    requires Enabled(s, Read(c)) && IsRun(Apply(s, Read(c)), mid)
  {
    Final(Apply(s, Read(c)), mid).table
  }

  // ---- nothing that happens in between changes what the call is going to write ----

  /** The call once its lookup, if it has one to make, has been answered. */
  function Settled(call: Call, reply: Option<WeatherReply>): Call {
    if !call.LookingUp? || reply.None? then call
    else
      var found := ResolveWeather(reply.value);
      if found.Err? then Failed(found.error) else AfterLookup(call, found.value)
  }

  lemma StepSettles(s: State, c: nat, a: Action)
    requires Enabled(s, a) && c in s.calls && (a.call == c ==> a.Lookup?)
    requires !s.calls[c].Creating?
    ensures c in Apply(s, a).calls
    ensures Apply(s, a).calls[c] == if a.call == c then Settled(s.calls[c], Some(a.reply)) else s.calls[c]
    ensures a.call == c ==> s.calls[c].LookingUp? && !Apply(s, a).calls[c].LookingUp?
  {
  }

  lemma {:induction false} MidSettles(s: State, c: nat, mid: seq<Action>)
    requires IsRun(s, mid) && Between(mid, c) && c in s.calls && !s.calls[c].Creating?
    ensures c in Final(s, mid).calls && Final(s, mid).calls[c] == Settled(s.calls[c], Answered(mid, c))
    decreases |mid|
  {
    if mid == [] {
    } else {
      StepSettles(s, c, mid[0]);
      MidSettles(Apply(s, mid[0]), c, mid[1..]);
    }
  }

  /** The answer used is the one the call got; without a lookup any answer will do. */
  predicate Answers(mid: seq<Action>, c: nat, reply: WeatherReply) {
    Answered(mid, c).Some? ==> Answered(mid, c).value == reply
  }

  /** The call writes the row it read with the input and its own lookup put in, whatever happens in between. */
  lemma WritesWhatItRead(s: State, c: nat, mid: seq<Action>, reply: WeatherReply, newId: nat, now: int)
    requires Inv(s) && IsRun(s, Interrupted(c, mid, newId, now)) && Between(mid, c) && Answers(mid, c, reply)
    ensures Enabled(s, Read(c)) && IsRun(Apply(s, Read(c)), mid)
    ensures var id, input := s.calls[c].id, s.calls[c].input;
            && !IsEmptyUpdate(input) && id in s.table && s.table[id].id == id
            && PlanWithLookup(s.table[id], input, reply).Ok?
            && c in Final(Apply(s, Read(c)), mid).calls
            && Final(Apply(s, Read(c)), mid).calls[c]
               == UpdateReady(s.table[id], PlanWithLookup(s.table[id], input, reply).value)
  {
    InterruptedSplits(s, c, mid, newId, now);
    assert CallInv(s, s.calls[c]);
    MidSettles(Apply(s, Read(c)), c, mid);
  }

  /** The same, said from the row that was read, the request and the answer alone. */
  lemma WritesItsInput(s: State, c: nat, mid: seq<Action>, reply: WeatherReply, newId: nat, now: int)
    requires Inv(s) && IsRun(s, Interrupted(c, mid, newId, now)) && Between(mid, c) && Answers(mid, c, reply)
    ensures Enabled(s, Read(c)) && IsRun(Apply(s, Read(c)), mid)
    ensures var id, input, t := s.calls[c].id, s.calls[c].input, Final(Apply(s, Read(c)), mid);
            && id in s.table && c in t.calls && UpdateAccepted(input) && (Moves(s.table[id], input) ==> reply.Found?)
            && var row := s.table[id];
               t.calls[c] == UpdateReady(row,
                               if Moves(row, input) then ParamsOf(row, input, reply.weather, reply.location)
                               else ParamsOf(row, input, row.weather, row.resolvedLocation))
  {
    WritesWhatItRead(s, c, mid, reply, newId, now);
    UpdateWritesItsInput(s.table[s.calls[c].id], s.calls[c].input, reply);
  }

  /**
   If the row is what it was when the call read it, the call ends as the method would have, run alone at
   the moment of the write; if the row is gone, it ends as not found.
   */
  lemma UnchangedRowMakesItAtomic(s: State, c: nat, mid: seq<Action>, reply: WeatherReply, newId: nat, now: int)
    requires Inv(s) && IsRun(s, Interrupted(c, mid, newId, now)) && Between(mid, c) && Answers(mid, c, reply)
    ensures Enabled(s, Read(c)) && IsRun(Apply(s, Read(c)), mid)
    ensures var id, input := s.calls[c].id, s.calls[c].input;
            var before, end := TableBefore(s, c, mid), Final(s, Interrupted(c, mid, newId, now));
            id in s.table &&
            (id !in before || before[id] == s.table[id]
             ==> EndedAs(before, end, c, UpdateOutcome(before, id, input, reply, now), id))
  {
    InterruptedSplits(s, c, mid, newId, now);
    WritesWhatItRead(s, c, mid, reply, newId, now);
    var id, t := s.calls[c].id, Final(Apply(s, Read(c)), mid);
    if id in t.table && t.table[id] == s.table[id] {
      WritesReadRow(t, c, s.table[id], s.calls[c].input, reply, newId, now);
    }
  }

  lemma WritesReadRow(t: State, c: nat, row: Note, input: UpdateInput, reply: WeatherReply, newId: nat, now: int)
    requires !IsEmptyUpdate(input) && PlanWithLookup(row, input, reply).Ok?
    requires c in t.calls && t.calls[c] == UpdateReady(row, PlanWithLookup(row, input, reply).value)
    requires row.id in t.table && t.table[row.id] == row
    ensures EndedAs(t.table, Apply(t, Write(c, newId, now)), c, UpdateOutcome(t.table, row.id, input, reply, now), row.id)
  {
  }

  // ---- fields the update leaves out ----

  /** The fields the input does not mention; location query, resolved place and weather go together. */
  predicate LeftOutSame(input: UpdateInput, a: Note, b: Note) {
    TitleSame(input, a, b) && BodySame(input, a, b) && PlaceSame(input, a, b)
  }

  predicate TitleSame(input: UpdateInput, a: Note, b: Note) {
    input.title.None? ==> a.title == b.title
  }

  predicate BodySame(input: UpdateInput, a: Note, b: Note) {
    input.body.None? ==> a.body == b.body
  }

  predicate PlaceSame(input: UpdateInput, a: Note, b: Note) {
    input.location.None? ==>
      a.locationQuery == b.locationQuery && a.resolvedLocation == b.resolvedLocation && a.weather == b.weather
  }

  lemma PlanKeepsLeftOut(row: Note, input: UpdateInput, reply: WeatherReply, before: Note, now: int)
    requires PlanWithLookup(row, input, reply).Ok?
    ensures LeftOutSame(input, row, UpdatedRow(before, PlanWithLookup(row, input, reply).value, now))
  {
  }

  /**
   A call that succeeds sets every field it leaves out back to what it read: what others wrote there
   in between survives, field by field, if and only if they left it at the value this call had read.
   */
  lemma LeftOutFieldSurvivesIffUntouched(
    s: State, c: nat, mid: seq<Action>, reply: WeatherReply, newId: nat, now: int)
    requires Inv(s) && IsRun(s, Interrupted(c, mid, newId, now)) && Between(mid, c) && Answers(mid, c, reply)
    requires c in Final(s, Interrupted(c, mid, newId, now)).calls
    requires Final(s, Interrupted(c, mid, newId, now)).calls[c].Returned?
    ensures Enabled(s, Read(c)) && IsRun(Apply(s, Read(c)), mid)
    ensures var id, input := s.calls[c].id, s.calls[c].input;
            var before, after := TableBefore(s, c, mid), Final(s, Interrupted(c, mid, newId, now)).table;
            && id in s.table && id in before && id in after
            && (TitleSame(input, before[id], after[id]) <==> TitleSame(input, s.table[id], before[id]))
            && (BodySame(input, before[id], after[id]) <==> BodySame(input, s.table[id], before[id]))
            && (PlaceSame(input, before[id], after[id]) <==> PlaceSame(input, s.table[id], before[id]))
            && LeftOutSame(input, s.table[id], after[id])
  {
    InterruptedSplits(s, c, mid, newId, now);
    WritesWhatItRead(s, c, mid, reply, newId, now);
    var id, input, before := s.calls[c].id, s.calls[c].input, TableBefore(s, c, mid);
    PlanKeepsLeftOut(s.table[id], input, reply, before[id], now);
  }

  // ---- a lost update ----

  /** The row with only its title, or only its body, replaced. */
  function TitlePlan(row: Note, title: string): UpdateParams {
    UpdateParams(row.id, title, row.body, row.locationQuery, row.resolvedLocation, row.weather)
  }

  function BodyPlan(row: Note, body: string): UpdateParams {
    UpdateParams(row.id, row.title, body, row.locationQuery, row.resolvedLocation, row.weather)
  }

  /** Two updates, one of the title and one of the body, up to the point where both have read the row. */
  function RacingReads(id: nat, title: string, body: string): seq<Action> {
    [StartUpdate(0, id, UpdateInput(Some(title), None, None))]
    + ([StartUpdate(1, id, UpdateInput(None, Some(body), None))] + [Read(0), Read(1)])
  }

  function RacingUpdates(id: nat, title: string, body: string, now: int): seq<Action> {
    RacingReads(id, title, body) + [Write(0, 0, now), Write(1, 0, now)]
  }

  /** Both calls have read the row and neither has written. */
  predicate BothHaveRead(s: State, row: Note, title: string, body: string) {
    && 0 in s.calls && s.calls[0] == UpdateReady(row, TitlePlan(row, title))
    && 1 in s.calls && s.calls[1] == UpdateReady(row, BodyPlan(row, body))
    && row.id in s.table && s.table[row.id] == row
  }

  lemma BothCanRead(s: State, row: Note, title: string, body: string)
    requires row.id in s.table && s.table[row.id] == row && 0 !in s.calls && 1 !in s.calls
    requires GoodText(title, MAX_TITLE_LENGTH) && GoodText(body, MAX_BODY_LENGTH)
    ensures IsRun(s, RacingReads(row.id, title, body))
    ensures BothHaveRead(Final(s, RacingReads(row.id, title, body)), row, title, body)
  {
    TrimOfTrimmed(title);
    TrimOfTrimmed(body);
    var first, second := UpdateInput(Some(title), None, None), UpdateInput(None, Some(body), None);
    var started := Apply(Apply(s, StartUpdate(0, row.id, first)), StartUpdate(1, row.id, second));
    assert AfterRead(started.table, row.id, first) == UpdateReady(row, TitlePlan(row, title));
    assert AfterRead(started.table, row.id, second) == UpdateReady(row, BodyPlan(row, body));
    RunOfTwo(started, Read(0), Read(1));
    RunOfCons(Apply(s, StartUpdate(0, row.id, first)), StartUpdate(1, row.id, second), [Read(0), Read(1)]);
    RunOfCons(s, StartUpdate(0, row.id, first), [StartUpdate(1, row.id, second)] + [Read(0), Read(1)]);
  }

  lemma BothWrite(s: State, row: Note, title: string, body: string, now: int)
    requires BothHaveRead(s, row, title, body) && Checks(row) && now >= row.createdAt
    requires NotBlank(title) && |title| <= MAX_TITLE_LENGTH && NotBlank(body) && |body| <= MAX_BODY_LENGTH
    ensures IsRun(s, [Write(0, 0, now), Write(1, 0, now)])
    ensures var end := Final(s, [Write(0, 0, now), Write(1, 0, now)]);
            && 0 in end.calls && end.calls[0].Returned? && end.calls[0].note.title == title
            && 1 in end.calls && end.calls[1].Returned?
            && row.id in end.table && end.table[row.id].title == row.title && end.table[row.id].body == body
  {
    RunOfTwo(s, Write(0, 0, now), Write(1, 0, now));
  }

  /**
   A run of two updates, of the title and of the body, that both succeed and of which the first one's
   title is lost although the second does not mention titles.
   */
  lemma ConcurrentUpdateLosesTitle(s: State, row: Note, title: string, body: string, now: int)
    requires row.id in s.table && s.table[row.id] == row && 0 !in s.calls && 1 !in s.calls
    requires Checks(row) && now >= row.createdAt && title != row.title
    requires GoodText(title, MAX_TITLE_LENGTH) && GoodText(body, MAX_BODY_LENGTH)
    ensures IsRun(s, RacingUpdates(row.id, title, body, now))
    ensures var end := Final(s, RacingUpdates(row.id, title, body, now));
            && 0 in end.calls && end.calls[0].Returned? && end.calls[0].note.title == title
            && 1 in end.calls && end.calls[1].Returned?
            && row.id in end.table && end.table[row.id].title == row.title != title && end.table[row.id].body == body
  {
    BothCanRead(s, row, title, body);
    assert title[0] != ' ' && body[0] != ' ';
    BothWrite(Final(s, RacingReads(row.id, title, body)), row, title, body, now);
    RunsJoin(s, RacingReads(row.id, title, body), [Write(0, 0, now), Write(1, 0, now)]);
  }
}
