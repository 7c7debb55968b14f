/** The PostgreSQL repository for notes: the table and the statements that read and change it. */
module NotesRepository {
  import opened Wrappers
  import opened NotesTable

  const MAX_INT32: int := 0x7FFF_FFFF

  datatype RepositoryError = NoteNotFound | ConstraintViolated

  datatype CreateParams = CreateParams(
    title: string, body: string, locationQuery: string, resolvedLocation: string, weather: Weather)

  datatype UpdateParams = UpdateParams(
    id: nat, title: string, body: string, locationQuery: string, resolvedLocation: string, weather: Weather)

  function ClampPositiveInt32(value: int): (r: int)
    ensures 1 <= r <= MAX_INT32 && (1 <= value <= MAX_INT32 ==> r == value)
    ensures value < 1 ==> r == 1
  {
    var atLeastOne := if value < 1 then 1 else value;
    if atLeastOne > MAX_INT32 then MAX_INT32 else atLeastOne
  }

  /** btrim(s) <> '': PostgreSQL trims blanks only. */
  predicate NotBlank(s: string) {
    exists i :: 0 <= i < |s| && s[i] != ' '
  }

  /** The CHECK constraints of the table. */
  predicate Checks(n: Note) {
    && NotBlank(n.title) && |n.title| <= 200
    && NotBlank(n.body) && |n.body| <= 10000
    && NotBlank(n.locationQuery) && |n.locationQuery| <= 200
    && NotBlank(n.resolvedLocation) && NotBlank(n.weather.provider) && NotBlank(n.weather.condition)
    && -150.0 <= n.weather.temperatureC <= 150.0
    && n.updatedAt >= n.createdAt
  }

  /** The row an INSERT creates at time `now` with the generated `id`. */
  function NewRow(p: CreateParams, id: nat, now: int): Note {
    Note(id, p.title, p.body, p.locationQuery, p.resolvedLocation, p.weather, now, now)
  }

  /** The row an UPDATE leaves: every column but the id and the creation time. */
  function UpdatedRow(row: Note, p: UpdateParams, now: int): Note {
    Note(row.id, p.title, p.body, p.locationQuery, p.resolvedLocation, p.weather, row.createdAt, now)
  }

  function AfterInsert(t: Table, p: CreateParams, id: nat, now: int): Table {
    if Checks(NewRow(p, id, now)) then t[id := NewRow(p, id, now)] else t
  }

  function AfterUpdate(t: Table, p: UpdateParams, now: int): Table {
    if p.id in t && Checks(UpdatedRow(t[p.id], p, now)) then t[p.id := UpdatedRow(t[p.id], p, now)] else t
  }

  function AfterDelete(t: Table, id: nat): Table {
    t - {id}
  }

  class Repository {
    var rows: Table

    constructor ()
      ensures rows == map[]
    {
      rows := map[];
    }

    /** `id` and `now` are the values PostgreSQL generates: a fresh non-nil UUID and its clock. */
    method CreateNote(p: CreateParams, id: nat, now: int) returns (r: Result<Note, RepositoryError>)
      requires id !in rows && Key(now, id).Valid()
      modifies this
      ensures rows == AfterInsert(old(rows), p, id, now)
      ensures r == if Checks(NewRow(p, id, now)) then Ok(NewRow(p, id, now)) else Err(ConstraintViolated)
    {
      var row := NewRow(p, id, now);
      if !Checks(row) {
        return Err(ConstraintViolated);
      }
      rows := rows[id := row];
      return Ok(row);
    }

    method GetNote(id: nat) returns (r: Result<Note, RepositoryError>)
      ensures r == if id in rows then Ok(rows[id]) else Err(NoteNotFound)
    {
      if id !in rows {
        return Err(NoteNotFound);
      }
      return Ok(rows[id]);
    }

    method UpdateNote(p: UpdateParams, now: int) returns (r: Result<int, RepositoryError>)
      modifies this
      ensures rows == AfterUpdate(old(rows), p, now)
      ensures p.id !in old(rows) ==> r == Err(NoteNotFound)
      ensures p.id in old(rows) ==>
                r == if Checks(UpdatedRow(old(rows)[p.id], p, now)) then Ok(now) else Err(ConstraintViolated)
    {
      if p.id !in rows {
        return Err(NoteNotFound);
      }
      var row := UpdatedRow(rows[p.id], p, now);
      if !Checks(row) {
        return Err(ConstraintViolated);
      }
      rows := rows[p.id := row];
      return Ok(now);
    }

    method DeleteNote(id: nat) returns (r: Result<(), RepositoryError>)
      modifies this
      ensures rows == AfterDelete(old(rows), id)
      ensures r == if id in old(rows) then Ok(()) else Err(NoteNotFound)
    {
      if id !in rows {
        return Err(NoteNotFound);
      }
      rows := rows - {id};
      return Ok(());
    }

    /** The page query, row by row in index order. */
    method ListNotesPage(cursor: Option<Key>, limit: int) returns (page: seq<Note>)
      requires Valid(rows)
      ensures page == Page(rows, cursor, ClampPositiveInt32(limit))
    {
      var limitCount := ClampPositiveInt32(limit);
      page := [];
      var left := set id | id in rows && Matches(cursor, rows[id]);
      while |page| < limitCount && left != {}
        invariant |page| <= limitCount && left == MatchingIds(rows, cursor, page)
        invariant IsPage(rows, cursor, |page|, page)
        decreases left
      {
        ghost var greatest := GreatestExists(rows, left);
        var top :| top in left && forall id :: id in left && id != top ==> Less(KeyOf(rows[id]), KeyOf(rows[top]));
        PageGrows(rows, cursor, page, top);
        FewerLeft(rows, cursor, page, top);
        page := page + [rows[top]];
        left := left - {top};
      }
      NothingLeft(rows, cursor, limitCount, page);
      PageIsUnique(rows, cursor, limitCount, page);
    }
  }
}
