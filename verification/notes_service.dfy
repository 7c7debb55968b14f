/** The notes service: validation, weather lookups, and the four operations on the repository. */
module NotesService {
  import opened Wrappers
  import opened Text
  import opened NotesTable
  import opened NotesRepository

  const DEFAULT_LIST_LIMIT := 20
  const MAX_LIST_LIMIT := 100
  const MAX_TITLE_LENGTH := 200
  const MAX_BODY_LENGTH := 10000
  const MAX_LOCATION_LENGTH := 200

  datatype Field = Title | Body | Location

  datatype ApiError =
    | Required(field: Field)
    | TooLong(field: Field)
    | EmptyUpdate
    | NotFound
    | InvalidCursor
    | LocationNotFound
    | WeatherUpstream
    | WeatherTimeout
    | WeatherFailed
    | Internal

  // ---- validation ----

  function ValidateRequired(value: string, field: Field, maxLength: int): Result<string, ApiError> {
    var trimmed := TrimSpace(value);
    if trimmed == "" then Err(Required(field))
    else if maxLength > 0 && |trimmed| > maxLength then Err(TooLong(field))
    else Ok(trimmed)
  }

  /** A stored text: no blank ends, not empty, not too long. */
  predicate GoodText(s: string, maxLength: nat) {
    s != "" && Trimmed(s) && |s| <= maxLength
  }

  /** Exactly the values with a good text between their blank ends are accepted, and become that text. */
  lemma ValidateRequiredExact(value: string, field: Field, maxLength: nat)
    requires maxLength > 0
    ensures var r := ValidateRequired(value, field, maxLength);
            && (r.Ok? ==> GoodText(r.value, maxLength))
            && (r.Ok? <==> exists left, text, right ::
                  value == left + text + right && Blank(left) && Blank(right) && GoodText(text, maxLength))
  {
    var left, right := TrimSpaceCutsBlankEnds(value);
    forall l, text, r | value == l + text + r && Blank(l) && Blank(r) && GoodText(text, maxLength)
      ensures TrimSpace(value) == text
    {
      TrimSpaceFinds(l, text, r);
    }
  }

  lemma TrimSpaceFinds(left: string, text: string, right: string)
    requires Blank(left) && Blank(right) && text != "" && Trimmed(text)
    ensures TrimSpace(left + text + right) == text
  {
    TrimLeftSkips(left, text + right);
    assert left + text + right == left + (text + right);
    TrimRightSkips(text, right);
  }

  lemma {:induction false} TrimLeftSkips(left: string, s: string)
    requires Blank(left) && s != "" && !IsSpace(s[0])
    ensures TrimLeft(left + s) == s
  {
    if left == "" {
      assert left + s == s;
    } else {
      assert (left + s)[1..] == left[1..] + s;
      TrimLeftSkips(left[1..], s);
    }
  }

  lemma {:induction false} TrimRightSkips(s: string, right: string)
    requires Blank(right) && s != "" && !IsSpace(s[|s| - 1])
    ensures TrimRight(s + right) == s
    decreases |right|
  {
    if right == "" {
      assert s + right == s;
    } else {
      var shorter := right[..|right| - 1];
      assert (s + right)[..|s + right| - 1] == s + shorter;
      TrimRightSkips(s, shorter);
    }
  }

  // ---- weather ----

  datatype WeatherReply =
    | Found(weather: Weather, location: string)
    | UnknownLocation
    | UpstreamError
    | DecodeError
    | DeadlineExceeded
    | RequestFailed

  function ResolveWeather(reply: WeatherReply): Result<(Weather, string), ApiError> {
    match reply
    case Found(weather, location) => Ok((weather, location))
    case UnknownLocation => Err(LocationNotFound)
    case UpstreamError => Err(WeatherUpstream)
    case DecodeError => Err(WeatherUpstream)
    case DeadlineExceeded => Err(WeatherTimeout)
    case RequestFailed => Err(WeatherFailed)
  }

  function NoteError(e: RepositoryError): ApiError {
    if e.NoteNotFound? then NotFound else Internal
  }

  // ---- create and update, up to the lookup ----

  datatype CreateInput = CreateInput(title: string, body: string, location: string)

  datatype UpdateInput = UpdateInput(title: Option<string>, body: Option<string>, location: Option<string>)

  /** The three validated texts. */
  function ValidateCreate(input: CreateInput): Result<CreateInput, ApiError> {
    var title := ValidateRequired(input.title, Title, MAX_TITLE_LENGTH);
    if title.Err? then Err(title.error) else
    var body := ValidateRequired(input.body, Body, MAX_BODY_LENGTH);
    if body.Err? then Err(body.error) else
    var location := ValidateRequired(input.location, Location, MAX_LOCATION_LENGTH);
    if location.Err? then Err(location.error) else
    Ok(CreateInput(title.value, body.value, location.value))
  }

  function CreateWith(v: CreateInput, found: (Weather, string)): CreateParams {
    CreateParams(v.title, v.body, v.location, found.1, found.0)
  }

  function ValidateOr(input: Option<string>, current: string, field: Field, maxLength: int): Result<string, ApiError> {
    if input.None? then Ok(current) else ValidateRequired(input.value, field, maxLength)
  }

  /** The whole row to write, from the row that was read; its location decides whether to look up. */
  function PlanUpdate(current: Note, input: UpdateInput): Result<UpdateParams, ApiError> {
    var title := ValidateOr(input.title, current.title, Title, MAX_TITLE_LENGTH);
    if title.Err? then Err(title.error) else
    var body := ValidateOr(input.body, current.body, Body, MAX_BODY_LENGTH);
    if body.Err? then Err(body.error) else
    var location := ValidateOr(input.location, current.locationQuery, Location, MAX_LOCATION_LENGTH);
    if location.Err? then Err(location.error) else
    Ok(UpdateParams(current.id, title.value, body.value, location.value, current.resolvedLocation, current.weather))
  }

  predicate NeedsLookup(current: Note, plan: UpdateParams) {
    plan.locationQuery != current.locationQuery
  }

  function UpdateWith(plan: UpdateParams, found: (Weather, string)): UpdateParams {
    plan.(weather := found.0, resolvedLocation := found.1)
  }

  predicate IsEmptyUpdate(input: UpdateInput) {
    input.title.None? && input.body.None? && input.location.None?
  }

  /** The note UpdateNote returns: the identity it read, the texts it wrote. */
  function UpdateResponse(current: Note, p: UpdateParams, now: int): Note {
    Note(current.id, p.title, p.body, p.locationQuery, p.resolvedLocation, p.weather, current.createdAt, now)
  }

  // ---- what one call returns ----

  function CreateOutcome(input: CreateInput, reply: WeatherReply, id: nat, now: int): Result<Note, ApiError> {
    var v := ValidateCreate(input);
    if v.Err? then Err(v.error) else
    var found := ResolveWeather(reply);
    if found.Err? then Err(found.error) else
    var row := NewRow(CreateWith(v.value, found.value), id, now);
    if Checks(row) then Ok(row) else Err(Internal)
  }

  /** The params to write and the lookup's verdict, given the row read. */
  function PlanWithLookup(current: Note, input: UpdateInput, reply: WeatherReply): Result<UpdateParams, ApiError> {
    var plan := PlanUpdate(current, input);
    if plan.Err? || !NeedsLookup(current, plan.value) then plan
    else
      var found := ResolveWeather(reply);
      if found.Err? then Err(found.error) else Ok(UpdateWith(plan.value, found.value))
  }

  function UpdateOutcome(t: Table, id: nat, input: UpdateInput, reply: WeatherReply, now: int): Result<Note, ApiError> {
    if IsEmptyUpdate(input) then Err(EmptyUpdate)
    else if id !in t then Err(NotFound)
    else
      var p := PlanWithLookup(t[id], input, reply);
      if p.Err? then Err(p.error)
      else if Checks(UpdatedRow(t[id], p.value, now)) then Ok(UpdateResponse(t[id], p.value, now))
      else Err(Internal)
  }

  // ---- listing ----

  function NormalizeLimit(limit: int): (n: int)
    ensures 1 <= n <= MAX_LIST_LIMIT && (1 <= limit <= MAX_LIST_LIMIT ==> n == limit)
    ensures limit <= 0 ==> n == 20
    ensures limit > 100 ==> n == 100
  {
    if limit <= 0 then DEFAULT_LIST_LIMIT else if limit < MAX_LIST_LIMIT then limit else MAX_LIST_LIMIT
  }

  /** JSON and unpadded base64url, as a pair of functions on keys. */
  datatype Codec = Codec(encode: Key -> string, decode: string -> Option<Key>) {
    ghost predicate Inverse() {
      forall k: Key {:trigger encode(k)} :: k.Valid() ==>
        encode(k) != "" && TrimSpace(encode(k)) == encode(k) && decode(encode(k)) == Some(k)
    }
  }

  function EncodeCursor(codec: Codec, key: Key): Result<string, ApiError> {
    if !key.Valid() then Err(Internal) else Ok(codec.encode(key))
  }

  function DecodeCursor(codec: Codec, raw: string): Result<Key, ApiError> {
    var trimmed := TrimSpace(raw);
    if trimmed == "" then Err(InvalidCursor)
    else
      var key := codec.decode(trimmed);
      if key.None? || !key.value.Valid() then Err(InvalidCursor) else Ok(key.value)
  }

  lemma CursorRoundTrip(codec: Codec, key: Key)
    requires codec.Inverse()
    ensures EncodeCursor(codec, key).Ok? <==> key.Valid()
    ensures key.Valid() ==> DecodeCursor(codec, EncodeCursor(codec, key).value) == Ok(key)
  {
    if key.Valid() {
      assert codec.encode(key) != "";
    }
  }

  /** A raw cursor stands for a key exactly when its trimmed text decodes to it and the key is a real one. */
  lemma CursorVerdict(codec: Codec, raw: string, key: Key)
    ensures DecodeCursor(codec, raw) == Ok(key)
            <==> TrimSpace(raw) != "" && codec.decode(TrimSpace(raw)) == Some(key) && key.createdAt != 0 && key.id != 0
    ensures DecodeCursor(codec, raw).Err? ==> DecodeCursor(codec, raw) == Err(InvalidCursor)
  {
  }

  datatype ListResult = ListResult(items: seq<Note>, nextCursor: string)

  /** The page to return, cut from `page`, which holds up to one row more than `limit`. */
  function CutPage(codec: Codec, page: seq<Note>, limit: nat): Result<ListResult, ApiError>
    requires limit > 0
  {
    if |page| <= limit then Ok(ListResult(page, ""))
    else
      var encoded := EncodeCursor(codec, KeyOf(page[limit - 1]));
      if encoded.Err? then Err(encoded.error) else Ok(ListResult(page[..limit], encoded.value))
  }

  function CursorOf(codec: Codec, raw: string): Result<Option<Key>, ApiError> {
    if raw == "" then Ok(None)
    else
      var key := DecodeCursor(codec, raw);
      if key.Err? then Err(key.error) else Ok(Some(key.value))
  }

  ghost function ListOutcome(codec: Codec, t: Table, limit: int, raw: string): Result<ListResult, ApiError>
    requires Valid(t)
  {
    var cursor := CursorOf(codec, raw);
    if cursor.Err? then Err(cursor.error)
    else CutPage(codec, Page(t, cursor.value, NormalizeLimit(limit) + 1), NormalizeLimit(limit))
  }

  /** No cursor starts at the top; any other text that stands for no key is refused, blanks too. */
  lemma BadCursorIsRefused(codec: Codec, t: Table, limit: int, raw: string)
    requires Valid(t)
    ensures ListOutcome(codec, t, limit, raw) == Err(InvalidCursor)
            <==> raw != "" && forall key :: DecodeCursor(codec, raw) != Ok(key)
  {
    if raw != "" && DecodeCursor(codec, raw).Ok? {
      assert DecodeCursor(codec, raw) == Ok(DecodeCursor(codec, raw).value);
    }
  }

  // ---- the service, one call at a time ----

  class Service {
    const repository: Repository
    const codec: Codec

    constructor (repository: Repository, codec: Codec)
      ensures this.repository == repository && this.codec == codec
    {
      this.repository := repository;
      this.codec := codec;
    }

    /** `reply` is what the weather client answers for the validated location. */
    method CreateNote(input: CreateInput, reply: WeatherReply, id: nat, now: int) returns (r: Result<Note, ApiError>)
      requires id !in repository.rows && Key(now, id).Valid()
      modifies repository
      ensures r == CreateOutcome(input, reply, id, now)
      ensures repository.rows == if r.Ok? then old(repository.rows)[id := r.value] else old(repository.rows)
    {
      var title := ValidateRequired(input.title, Title, MAX_TITLE_LENGTH);
      if title.Err? {
        return Err(title.error);
      }
      var body := ValidateRequired(input.body, Body, MAX_BODY_LENGTH);
      if body.Err? {
        return Err(body.error);
      }
      var location := ValidateRequired(input.location, Location, MAX_LOCATION_LENGTH);
      if location.Err? {
        return Err(location.error);
      }
      var found := ResolveWeather(reply);
      if found.Err? {
        return Err(found.error);
      }
      var p := CreateParams(title.value, body.value, location.value, found.value.1, found.value.0);
      var created := repository.CreateNote(p, id, now);
      if created.Err? {
        return Err(Internal);
      }
      return Ok(Note(created.value.id, p.title, p.body, p.locationQuery, p.resolvedLocation, p.weather,
                     created.value.createdAt, created.value.updatedAt));
    }

    /** The limit+1 probe. */
    method ListNotes(limit: int, raw: string) returns (r: Result<ListResult, ApiError>)
      requires Valid(repository.rows)
      ensures r == ListOutcome(codec, repository.rows, limit, raw)
    {
      var normalized := NormalizeLimit(limit);
      var cursor: Option<Key> := None;
      if raw != "" {
        var decoded := DecodeCursor(codec, raw);
        if decoded.Err? {
          return Err(InvalidCursor);
        }
        cursor := Some(decoded.value);
      }
      var page := repository.ListNotesPage(cursor, normalized + 1);
      if |page| <= normalized {
        return Ok(ListResult(page, ""));
      }
      var items := page[..normalized];
      var next := EncodeCursor(codec, KeyOf(items[|items| - 1]));
      if next.Err? {
        return Err(next.error);
      }
      return Ok(ListResult(items, next.value));
    }

    /** Read, plan, look up when the location changed, write the whole row. */
    method UpdateNote(id: nat, input: UpdateInput, reply: WeatherReply, now: int) returns (r: Result<Note, ApiError>)
      requires Valid(repository.rows)
      modifies repository
      ensures r == UpdateOutcome(old(repository.rows), id, input, reply, now)
      ensures repository.rows == if r.Ok? then old(repository.rows)[id := r.value] else old(repository.rows)
    {
      if input.title.None? && input.body.None? && input.location.None? {
        return Err(EmptyUpdate);
      }
      var got := repository.GetNote(id);
      if got.Err? {
        return Err(NoteError(got.error));
      }
      var current := got.value;
      var plan := PlanUpdate(current, input);
      if plan.Err? {
        return Err(plan.error);
      }
      var updated := plan.value;
      if updated.locationQuery != current.locationQuery {
        var found := ResolveWeather(reply);
        if found.Err? {
          return Err(found.error);
        }
        updated := UpdateWith(updated, found.value);
      }
      var result := repository.UpdateNote(updated, now);
      if result.Err? {
        return Err(NoteError(result.error));
      }
      return Ok(Note(current.id, updated.title, updated.body, updated.locationQuery, updated.resolvedLocation,
                     updated.weather, current.createdAt, result.value));
    }

    method DeleteNote(id: nat) returns (r: Result<(), ApiError>)
      modifies repository
      ensures repository.rows == old(repository.rows) - {id}
      ensures r == if id in old(repository.rows) then Ok(()) else Err(NotFound)
    {
      var result := repository.DeleteNote(id);
      if result.Err? {
        return Err(NoteError(result.error));
      }
      return Ok(());
    }
  }
}
