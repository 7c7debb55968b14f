/**
 A client that follows NextCursor to the end, one ListNotes call at a time with any limit, while
 other clients insert, update and delete notes between its calls.
 */
module NotesScan {
  import opened Wrappers
  import opened NotesTable
  import opened NotesRepository
  import opened NotesService

  datatype Change =
    | Insert(create: CreateParams, id: nat, now: int)
    | Update(update: UpdateParams, now: int)
    | Delete(id: nat)

  datatype Event = Mutate(change: Change) | Fetch(limit: int)

  /** `births` remembers every id ever generated and its creation time. */
  datatype State = State(
    table: Table,
    births: map<nat, int>,
    cursor: string,
    done: bool,
    collected: seq<Note>)

  /** PostgreSQL never generates the same id twice, nor a nil id, nor the zero time. */
  predicate ChangeEnabled(s: State, change: Change) {
    change.Insert? ==> change.id !in s.births && Key(change.now, change.id).Valid()
  }

  function TableAfter(t: Table, change: Change): Table {
    match change
    case Insert(p, id, now) => AfterInsert(t, p, id, now)
    case Update(p, now) => AfterUpdate(t, p, now)
    case Delete(id) => AfterDelete(t, id)
  }

  ghost predicate TableInv(s: State) {
    && Valid(s.table) && RealKeys(s.table)
    && forall id :: id in s.table ==> id in s.births && s.births[id] == s.table[id].createdAt
  }

  ghost predicate Enabled(s: State, e: Event) {
    match e
    case Mutate(change) => ChangeEnabled(s, change)
    case Fetch(_) => !s.done && Valid(s.table)
  }

  /** A failed call leaves the scan where it was. */
  ghost function AfterFetch(codec: Codec, s: State, limit: int): State
    requires Valid(s.table)
  {
    var r := ListOutcome(codec, s.table, limit, s.cursor);
    if r.Err? then s
    else s.(collected := s.collected + r.value.items, cursor := r.value.nextCursor, done := r.value.nextCursor == "")
  }

  ghost function Apply(codec: Codec, s: State, e: Event): State
    requires Enabled(s, e)
  {
    match e
    case Mutate(change) =>
      s.(table := TableAfter(s.table, change),
         births := if change.Insert? then s.births[change.id := change.now] else s.births)
    case Fetch(limit) => AfterFetch(codec, s, limit)
  }

  ghost predicate IsRun(codec: Codec, s: State, run: seq<Event>)
    decreases |run|
  {
    run == [] || (Enabled(s, run[0]) && IsRun(codec, Apply(codec, s, run[0]), run[1..]))
  }

  ghost function Final(codec: Codec, s: State, run: seq<Event>): State
    requires IsRun(codec, s, run)
    decreases |run|
  {
    if run == [] then s else Final(codec, Apply(codec, s, run[0]), run[1..])
  }

  /** A scan that is about to start over any reachable table. */
  ghost predicate Begins(s: State) {
    TableInv(s) && s.cursor == "" && !s.done && s.collected == []
  }

  // ---- what every event keeps ----

  predicate Collected(s: State, id: nat) {
    exists i :: 0 <= i < |s.collected| && s.collected[i].id == id
  }

  /** The cursor string stands for the key of the last row handed out. */
  ghost predicate CursorInv(codec: Codec, s: State) {
    !s.done ==>
      if s.collected == [] then s.cursor == ""
      else s.cursor != "" && DecodeCursor(codec, s.cursor) == Ok(KeyOf(s.collected[|s.collected| - 1]))
  }

  ghost predicate CollectedInv(s: State) {
    && Descending(s.collected)
    && (forall i :: 0 <= i < |s.collected| ==>
          s.collected[i].id in s.births && s.births[s.collected[i].id] == s.collected[i].createdAt)
  }

  /** A note is past once the scan has gone beyond its key. */
  predicate Past(s: State, n: Note) {
    s.done || (s.collected != [] && !Less(KeyOf(n), KeyOf(s.collected[|s.collected| - 1])))
  }

  /** Of the notes there from the start, those still there and past have been handed out. */
  ghost predicate CompleteInv(s: State, origin: set<nat>) {
    && origin <= s.births.Keys
    && forall id :: id in origin && id in s.table && Past(s, s.table[id]) ==> Collected(s, id)
  }

  ghost predicate Inv(codec: Codec, s: State, origin: set<nat>) {
    TableInv(s) && CursorInv(codec, s) && CollectedInv(s) && CompleteInv(s, origin)
  }

  lemma ChangeKeepsTable(s: State, change: Change)
    requires TableInv(s) && ChangeEnabled(s, change)
    ensures var births := if change.Insert? then s.births[change.id := change.now] else s.births;
            TableInv(s.(table := TableAfter(s.table, change), births := births))
    ensures forall id :: id in TableAfter(s.table, change) && id in s.births ==>
              id in s.table && KeyOf(TableAfter(s.table, change)[id]) == KeyOf(s.table[id])
  {
  }

  lemma ChangeKeepsInv(codec: Codec, s: State, change: Change, origin: set<nat>)
    requires Inv(codec, s, origin) && ChangeEnabled(s, change)
    ensures Inv(codec, Apply(codec, s, Mutate(change)), origin)
  {
    var t := Apply(codec, s, Mutate(change));
    ChangeKeepsTable(s, change);
    forall id | id in origin && id in t.table && Past(t, t.table[id])
      ensures Collected(t, id)
    {
      assert Past(s, s.table[id]);
      assert Collected(s, id);
    }
  }

  /** Where the scan stands: the key after which the next page begins. */
  function ScanKey(s: State): Option<Key> {
    LastKey(s.collected)
  }

  function LastKey(rows: seq<Note>): Option<Key> {
    if rows == [] then None else Some(KeyOf(rows[|rows| - 1]))
  }

  /** The rows to hand out of a page with the probe row. */
  function Cut(page: seq<Note>, n: nat): seq<Note> {
    if |page| <= n then page else page[..n]
  }

  /** `t` is `s` after a page of n rows, whatever the cursor string looks like. */
  ghost predicate Fetched(s: State, t: State, n: nat) {
    && Valid(s.table) && n > 0
    && t.table == s.table && t.births == s.births
    && var page := Page(s.table, ScanKey(s), n + 1);
       t.collected == s.collected + Cut(page, n) && (t.done <==> |page| <= n)
  }

  /** Cutting a page never fails, and the next cursor is there exactly when rows are cut off, for the last one kept. */
  lemma CutFollows(codec: Codec, page: seq<Note>, n: nat)
    requires codec.Inverse() && n > 0 && (|page| > n ==> KeyOf(page[n - 1]).Valid())
    ensures CutPage(codec, page, n).Ok? && CutPage(codec, page, n).value.items == Cut(page, n)
    ensures |page| <= n ==> CutPage(codec, page, n).value.nextCursor == ""
    ensures |page| > n ==>
              var next := CutPage(codec, page, n).value.nextCursor;
              next != "" && DecodeCursor(codec, next) == Ok(KeyOf(page[n - 1]))
  {
    if |page| > n {
      CursorRoundTrip(codec, KeyOf(page[n - 1]));
      assert codec.encode(KeyOf(page[n - 1])) != "";
    }
  }

  lemma FetchCutsScanPage(codec: Codec, s: State, limit: int)
    requires Valid(s.table) && CursorInv(codec, s) && !s.done
    ensures ListOutcome(codec, s.table, limit, s.cursor)
         == CutPage(codec, Page(s.table, ScanKey(s), NormalizeLimit(limit) + 1), NormalizeLimit(limit))
  {
    assert CursorOf(codec, s.cursor) == Ok(ScanKey(s));
  }

  /** A real key at the end of every full page, so that there is always a cursor to continue from. */
  lemma PageKeysAreReal(s: State, cursor: Option<Key>, limit: nat, i: nat)
    requires TableInv(s) && i < |Page(s.table, cursor, limit)|
    ensures KeyOf(Page(s.table, cursor, limit)[i]).Valid()
  {
    assert Page(s.table, cursor, limit)[i].id in s.table;
  }

  /** The cursor string leads ListNotes to the row after the last one handed out, and never fails. */
  lemma FetchFollowsCursor(codec: Codec, s: State, limit: int)
    requires codec.Inverse() && TableInv(s) && CursorInv(codec, s) && !s.done
    ensures ListOutcome(codec, s.table, limit, s.cursor).Ok?
    ensures Fetched(s, AfterFetch(codec, s, limit), NormalizeLimit(limit))
    ensures CursorInv(codec, AfterFetch(codec, s, limit))
  {
    var n := NormalizeLimit(limit);
    var page := Page(s.table, ScanKey(s), n + 1);
    FetchCutsScanPage(codec, s, limit);
    if |page| > n {
      PageKeysAreReal(s, ScanKey(s), n + 1, n - 1);
      assert (s.collected + page[..n])[|s.collected| + n - 1] == page[n - 1];
    }
    CutFollows(codec, page, n);
  }

  lemma DescendingJoins(a: seq<Note>, b: seq<Note>)
    requires Descending(a) && Descending(b)
    requires a != [] ==> forall i :: 0 <= i < |b| ==> Less(KeyOf(b[i]), KeyOf(a[|a| - 1]))
    ensures Descending(a + b)
  {
    forall i, j | 0 <= i < j < |a + b|
      ensures Less(KeyOf((a + b)[j]), KeyOf((a + b)[i]))
    {
      if i < |a| <= j {
        assert Less(KeyOf(b[j - |a|]), KeyOf(a[|a| - 1]));
      }
    }
  }

  lemma FetchedKeepsCollected(s: State, t: State, n: nat)
    requires TableInv(s) && CollectedInv(s) && Fetched(s, t, n)
    ensures CollectedInv(t)
  {
    DescendingJoins(s.collected, Cut(Page(s.table, ScanKey(s), n + 1), n));
  }

  lemma FetchedKeepsComplete(s: State, t: State, n: nat, origin: set<nat>)
    requires TableInv(s) && CompleteInv(s, origin) && !s.done && Fetched(s, t, n)
    ensures CompleteInv(t, origin)
  {
    forall id | id in origin && id in t.table && Past(t, t.table[id])
      ensures Collected(t, id)
    {
      if Matches(ScanKey(s), s.table[id]) {
        PastRowIsHandedOut(s, t, n, s.table[id]);
      } else {
        assert Collected(s, id);
        var i :| 0 <= i < |s.collected| && s.collected[i].id == id;
        assert t.collected[i].id == id;
      }
    }
  }

  lemma PastRowIsHandedOut(s: State, t: State, n: nat, row: Note)
    requires row.id in s.table && s.table[row.id] == row && Fetched(s, t, n)
    requires Matches(ScanKey(s), row) && Past(t, row)
    ensures Collected(t, row.id)
  {
    var page := Page(s.table, ScanKey(s), n + 1);
    PastRowIsOnPage(s.table, ScanKey(s), n, page, row);
    var i :| 0 <= i < |page| && i < n && page[i] == row;
    assert t.collected[|s.collected| + i] == row;
  }

  /** A matching row not below the last row handed out of the page is handed out. */
  lemma PastRowIsOnPage(t: Table, cursor: Option<Key>, n: nat, page: seq<Note>, row: Note)
    requires Valid(t) && IsPage(t, cursor, n + 1, page) && n > 0
    requires row.id in t && t[row.id] == row && Matches(cursor, row)
    requires |page| > n ==> !Less(KeyOf(row), KeyOf(page[n - 1]))
    ensures exists i :: 0 <= i < |page| && i < n && page[i] == row
  {
    assert row in page;
  }

  lemma {:induction false} RunKeepsInv(codec: Codec, s: State, run: seq<Event>, origin: set<nat>)
    requires codec.Inverse() && Inv(codec, s, origin) && IsRun(codec, s, run)
    ensures Inv(codec, Final(codec, s, run), origin)
    decreases |run|
  {
    if run == [] {
    } else {
      match run[0] {
        case Mutate(change) => ChangeKeepsInv(codec, s, change, origin);
        case Fetch(limit) =>
          var n, t := NormalizeLimit(limit), AfterFetch(codec, s, limit);
          FetchFollowsCursor(codec, s, limit);
          FetchedKeepsCollected(s, t, n);
          FetchedKeepsComplete(s, t, n, origin);
      }
      RunKeepsInv(codec, Apply(codec, s, run[0]), run[1..], origin);
    }
  }

  lemma BeginsInv(codec: Codec, s: State)
    requires Begins(s)
    ensures Inv(codec, s, s.table.Keys)
  {
  }

  /** At any point of any scan the notes handed out are in strictly descending key order, none twice. */
  lemma ScanStrictlyDescends(codec: Codec, s: State, run: seq<Event>)
    requires codec.Inverse() && Begins(s) && IsRun(codec, s, run)
    ensures var c := Final(codec, s, run).collected;
            && Descending(c)
            && forall i, j :: 0 <= i < j < |c| ==> c[i].id != c[j].id
  {
    BeginsInv(codec, s);
    RunKeepsInv(codec, s, run, s.table.Keys);
  }

  /** A finished scan has handed out every note that was there throughout, exactly once. */
  lemma ScanIsComplete(codec: Codec, s: State, run: seq<Event>, id: nat)
    requires codec.Inverse() && Begins(s) && IsRun(codec, s, run)
    requires Final(codec, s, run).done && id in s.table && id in Final(codec, s, run).table
    ensures var c := Final(codec, s, run).collected;
            exists i :: 0 <= i < |c| && c[i].id == id && forall j :: 0 <= j < |c| && j != i ==> c[j].id != id
  {
    BeginsInv(codec, s);
    RunKeepsInv(codec, s, run, s.table.Keys);
    ScanStrictlyDescends(codec, s, run);
    var t := Final(codec, s, run);
    assert Collected(t, id);
    var i :| 0 <= i < |t.collected| && t.collected[i].id == id;
  }

  /** No ListNotes call of a scan fails. */
  lemma ScanNeverFails(codec: Codec, s: State, run: seq<Event>, limit: int)
    requires codec.Inverse() && Begins(s) && IsRun(codec, s, run) && !Final(codec, s, run).done
    ensures Valid(Final(codec, s, run).table)
    ensures ListOutcome(codec, Final(codec, s, run).table, limit, Final(codec, s, run).cursor).Ok?
  {
    BeginsInv(codec, s);
    RunKeepsInv(codec, s, run, s.table.Keys);
    FetchFollowsCursor(codec, Final(codec, s, run), limit);
  }

  // ---- a still table ----

  /** The whole table in key order. */
  ghost predicate IsListing(t: Table, listing: seq<Note>) {
    Descending(listing) && RowsOf(t, listing) && forall id :: id in t ==> t[id] in listing
  }

  /** `rows` are the first rows of the listing. */
  predicate Prefix(rows: seq<Note>, listing: seq<Note>) {
    |rows| <= |listing| && forall i :: 0 <= i < |rows| ==> rows[i] == listing[i]
  }

  /** `page` holds the rows of the listing from position k on, n of them if there are so many. */
  predicate SliceAt(page: seq<Note>, listing: seq<Note>, k: nat, n: nat) {
    && k <= |listing|
    && |page| == (if k + n <= |listing| then n else |listing| - k)
    && forall i :: 0 <= i < |page| ==> page[i] == listing[k + i]
  }

  /** A listed row below the first k and outside the slice comes after all of it. */
  lemma RowAfterSlice(listing: seq<Note>, slice: seq<Note>, k: nat, n: nat, row: Note)
    requires Descending(listing) && SliceAt(slice, listing, k, n) && row in listing && row !in slice
    requires k == 0 || Less(KeyOf(row), KeyOf(listing[k - 1]))
    ensures |slice| == n && forall i :: 0 <= i < |slice| ==> Less(KeyOf(row), KeyOf(slice[i]))
  {
    var m :| 0 <= m < |listing| && listing[m] == row;
    assert m >= k;
    assert m < k + |slice| ==> slice[m - k] == row;
  }

  lemma SliceIsRows(t: Table, listing: seq<Note>, slice: seq<Note>, k: nat, n: nat)
    requires Descending(listing) && RowsOf(t, listing) && SliceAt(slice, listing, k, n)
    ensures Descending(slice) && RowsOf(t, slice)
    ensures k > 0 ==> forall i :: 0 <= i < |slice| ==> Less(KeyOf(slice[i]), KeyOf(listing[k - 1]))
  {
  }

  lemma TakeSlice(listing: seq<Note>, k: nat, n: nat) returns (slice: seq<Note>)
    requires k <= |listing|
    ensures SliceAt(slice, listing, k, n)
  {
    slice := listing[k..if k + n <= |listing| then k + n else |listing|];
  }

  lemma SliceIsPage(t: Table, listing: seq<Note>, cursor: Option<Key>, slice: seq<Note>, k: nat, n: nat)
    requires Valid(t) && IsListing(t, listing) && SliceAt(slice, listing, k, n)
    requires cursor == if k == 0 then None else Some(KeyOf(listing[k - 1]))
    ensures IsPage(t, cursor, n, slice)
  {
    SliceIsRows(t, listing, slice, k, n);
    forall id | id in t && Matches(cursor, t[id]) && t[id] !in slice
      ensures |slice| == n && forall i :: 0 <= i < |slice| ==> Less(KeyOf(t[id]), KeyOf(slice[i]))
    {
      RowAfterSlice(listing, slice, k, n, t[id]);
    }
  }

  /** The page after a prefix of the listing is the listing's next slice. */
  lemma PageIsSlice(t: Table, listing: seq<Note>, rows: seq<Note>, n: nat)
    requires Valid(t) && IsListing(t, listing) && Prefix(rows, listing)
    ensures SliceAt(Page(t, LastKey(rows), n), listing, |rows|, n)
  {
    var slice := TakeSlice(listing, |rows|, n);
    SliceIsPage(t, listing, LastKey(rows), slice, |rows|, n);
    PageIsUnique(t, LastKey(rows), n, slice);
  }

  lemma NextPrefix(rows: seq<Note>, page: seq<Note>, listing: seq<Note>, n: nat)
    requires Prefix(rows, listing) && SliceAt(page, listing, |rows|, n + 1)
    ensures Prefix(rows + Cut(page, n), listing)
    ensures |rows + Cut(page, n)| == if |rows| + n <= |listing| then |rows| + n else |listing|
    ensures |page| <= n <==> |rows| + n >= |listing|
  {
    var next := rows + Cut(page, n);
    forall i | 0 <= i < |next|
      ensures next[i] == listing[i]
    {
      if i >= |rows| {
        assert next[i] == page[i - |rows|];
      }
    }
  }

  /** A scan of `calls` pages of the same limit over a table nobody changes. */
  ghost function StillScan(codec: Codec, s: State, limit: int, calls: nat): State
    requires TableInv(s)
    ensures StillScan(codec, s, limit, calls).table == s.table && StillScan(codec, s, limit, calls).births == s.births
  {
    if calls == 0 then s
    else
      var before := StillScan(codec, s, limit, calls - 1);
      if before.done then before else AfterFetch(codec, before, limit)
  }

  /** n, added up `calls` times. */
  function Reach(calls: nat, n: nat): nat {
    if calls == 0 then 0 else Reach(calls - 1, n) + n
  }

  lemma {:induction false} ReachIsProduct(calls: nat, n: nat)
    ensures Reach(calls, n) == calls * n
  {
    if calls == 0 {
    } else {
      ReachIsProduct(calls - 1, n);
      assert calls * n == (calls - 1) * n + n;
    }
  }

  /** The rows handed out by the first `calls` calls, and whether they are all. */
  ghost predicate Reached(t: State, listing: seq<Note>, calls: nat, n: nat) {
    && Prefix(t.collected, listing)
    && |t.collected| == (if Reach(calls, n) <= |listing| then Reach(calls, n) else |listing|)
    && (t.done <==> calls >= 1 && Reach(calls, n) >= |listing|)
  }

  lemma FetchedReaches(s: State, t: State, listing: seq<Note>, calls: nat, n: nat)
    requires Fetched(s, t, n) && calls >= 1 && !s.done && Reached(s, listing, calls - 1, n)
    requires SliceAt(Page(s.table, ScanKey(s), n + 1), listing, |s.collected|, n + 1)
    ensures Reached(t, listing, calls, n)
  {
    NextPrefix(s.collected, Page(s.table, ScanKey(s), n + 1), listing, n);
  }

  lemma {:induction false} StillScanReaches(codec: Codec, s: State, limit: int, calls: nat, listing: seq<Note>)
    requires codec.Inverse() && Begins(s) && IsListing(s.table, listing)
    ensures Reached(StillScan(codec, s, limit, calls), listing, calls, NormalizeLimit(limit))
    ensures CursorInv(codec, StillScan(codec, s, limit, calls))
    decreases calls
  {
    if calls == 0 {
    } else {
      StillScanReaches(codec, s, limit, calls - 1, listing);
      StillScanStep(codec, s, limit, calls, listing);
    }
  }

  lemma StillScanStep(codec: Codec, s: State, limit: int, calls: nat, listing: seq<Note>)
    requires codec.Inverse() && TableInv(s) && IsListing(s.table, listing) && calls > 0
    requires Reached(StillScan(codec, s, limit, calls - 1), listing, calls - 1, NormalizeLimit(limit))
    requires CursorInv(codec, StillScan(codec, s, limit, calls - 1))
    ensures Reached(StillScan(codec, s, limit, calls), listing, calls, NormalizeLimit(limit))
    ensures CursorInv(codec, StillScan(codec, s, limit, calls))
  {
    var n, before := NormalizeLimit(limit), StillScan(codec, s, limit, calls - 1);
    if !before.done {
      PageIsSlice(s.table, listing, before.collected, n + 1);
      FetchFollowsCursor(codec, before, limit);
      FetchedReaches(before, AfterFetch(codec, before, limit), listing, calls, n);
    }
  }

  /**
   Over a table nobody changes, with limit n per call, the first `calls` pages concatenate to the first
   calls*n rows of the sorted table, and the scan ends at the first call, at least one, that reaches
   its end.
   */
  lemma StillScanIsSortedTable(codec: Codec, s: State, limit: int, calls: nat, listing: seq<Note>)
    requires codec.Inverse() && Begins(s) && IsListing(s.table, listing)
    ensures var k, t := calls * NormalizeLimit(limit), StillScan(codec, s, limit, calls);
            && t.collected == (if k <= |listing| then listing[..k] else listing)
            && (t.done <==> calls >= 1 && k >= |listing|)
  {
    StillScanReaches(codec, s, limit, calls, listing);
    ReachIsProduct(calls, NormalizeLimit(limit));
  }

  function CallCount(rows: nat, limit: int): nat {
    var n := NormalizeLimit(limit);
    if rows == 0 then 1 else (rows + n - 1) / n
  }

  lemma CallCountSuffices(rows: nat, limit: int)
    ensures Suffices(CallCount(rows, limit), rows, NormalizeLimit(limit))
  {
    var calls, n := CallCount(rows, limit), NormalizeLimit(limit);
    if rows > 0 {
      assert rows + n - 1 == calls * n + (rows + n - 1) % n;
      assert calls >= 1;
      assert (calls - 1) * n == calls * n - n;
      ReachIsProduct(calls - 1, n);
    }
    ReachIsProduct(calls, n);
  }

  /** `calls` pages of n rows, and no fewer, reach the end of `rows` rows. */
  predicate Suffices(calls: nat, rows: nat, n: nat) {
    calls >= 1 && Reach(calls, n) >= rows && (calls == 1 || Reach(calls - 1, n) < rows)
  }

  /** The scan ends at call number `calls`, not before, having handed out the listing. */
  ghost predicate EndsAt(codec: Codec, s: State, limit: int, listing: seq<Note>, calls: nat)
    requires TableInv(s)
  {
    && calls >= 1
    && StillScan(codec, s, limit, calls).done && !StillScan(codec, s, limit, calls - 1).done
    && StillScan(codec, s, limit, calls).collected == listing
  }

  lemma ScanEnds(codec: Codec, s: State, limit: int, listing: seq<Note>, calls: nat)
    requires codec.Inverse() && Begins(s) && IsListing(s.table, listing)
    requires Suffices(calls, |listing|, NormalizeLimit(limit))
    ensures EndsAt(codec, s, limit, listing, calls)
  {
    StillScanReaches(codec, s, limit, calls - 1, listing);
    StillScanReaches(codec, s, limit, calls, listing);
  }

  /** The number of calls is one for an empty table and otherwise the row count over the limit, rounded up. */
  lemma StillScanCallCount(codec: Codec, s: State, limit: int, listing: seq<Note>)
    requires codec.Inverse() && Begins(s) && IsListing(s.table, listing)
    ensures EndsAt(codec, s, limit, listing, CallCount(|listing|, limit))
  {
    CallCountSuffices(|listing|, limit);
    ScanEnds(codec, s, limit, listing, CallCount(|listing|, limit));
  }

  /** Every table has a listing, as long as the table is large. */
  lemma ListingExists(t: Table) returns (listing: seq<Note>)
    requires Valid(t)
    ensures IsListing(t, listing) && |listing| == |t.Keys|
  {
    listing := Page(t, None, |t.Keys| + 1);
    var ids := IdsOf(listing);
    assert ids <= t.Keys;
    DistinctIdsCount(listing);
    SubsetSize(ids, t.Keys);
    forall id | id in t
      ensures id in ids
    {
      assert t[id] in listing;
    }
    assert ids == t.Keys;
  }

  ghost function IdsOf(rows: seq<Note>): set<nat> {
    set n | n in rows :: n.id
  }

  lemma {:induction false} DistinctIdsCount(rows: seq<Note>)
    requires Descending(rows) && forall i, j :: 0 <= i < j < |rows| ==> rows[i].id != rows[j].id
    ensures |IdsOf(rows)| == |rows|
    decreases |rows|
  {
    if rows == [] {
    } else {
      var rest := rows[1..];
      DistinctIdsCount(rest);
      assert IdsOf(rows) == {rows[0].id} + IdsOf(rest);
      assert rows[0].id !in IdsOf(rest);
    }
  }

  lemma {:induction false} SubsetSize(a: set<nat>, b: set<nat>)
    requires a <= b
    ensures |a| <= |b|
    decreases |a|
  {
    if a == {} {
    } else {
      var x :| x in a;
      SubsetSize(a - {x}, b - {x});
    }
  }
}
