/** The notes table and its queries, with the keyset page query specified by what it selects. */
module NotesTable {
  import opened Wrappers

  datatype Weather = Weather(provider: string, condition: string, temperatureC: real, observedAt: int)

  datatype Note = Note(
    id: nat,
    title: string,
    body: string,
    locationQuery: string,
    resolvedLocation: string,
    weather: Weather,
    createdAt: int,
    updatedAt: int)

  /** The sort key; zero stands for the nil UUID and the zero time. */
  datatype Key = Key(createdAt: int, id: nat) {
    predicate Valid() {
      createdAt != 0 && id != 0
    }
  }

  function KeyOf(n: Note): Key {
    Key(n.createdAt, n.id)
  }

  /** The row comparison of (created_at, id). */
  predicate Less(a: Key, b: Key) {
    a.createdAt < b.createdAt || (a.createdAt == b.createdAt && a.id < b.id)
  }

  type Table = map<nat, Note>

  /** The id is the primary key. */
  ghost predicate Valid(t: Table) {
    forall id :: id in t ==> t[id].id == id
  }

  /** No nil id and no zero creation time. */
  ghost predicate RealKeys(t: Table) {
    forall id :: id in t ==> KeyOf(t[id]).Valid()
  }

  // ---- SELECT ... WHERE key < cursor ORDER BY key DESC LIMIT n ----

  predicate Matches(cursor: Option<Key>, n: Note) {
    cursor.None? || Less(KeyOf(n), cursor.value)
  }

  ghost predicate Descending(page: seq<Note>) {
    forall i, j :: 0 <= i < j < |page| ==> Less(KeyOf(page[j]), KeyOf(page[i]))
  }

  ghost predicate RowsOf(t: Table, page: seq<Note>) {
    forall i :: 0 <= i < |page| ==> page[i].id in t && t[page[i].id] == page[i]
  }

  /** A matching row is left out only because `limit` greater ones are there. */
  ghost predicate IsPage(t: Table, cursor: Option<Key>, limit: nat, page: seq<Note>) {
    && Descending(page) && RowsOf(t, page) && |page| <= limit
    && (forall i :: 0 <= i < |page| ==> Matches(cursor, page[i]))
    && (forall id :: id in t && Matches(cursor, t[id]) && t[id] !in page ==>
          |page| == limit && forall i :: 0 <= i < |page| ==> Less(KeyOf(t[id]), KeyOf(page[i])))
  }

  /** Some id whose key is greatest among `ids`. */
  lemma {:induction false} GreatestExists(t: Table, ids: set<nat>) returns (top: nat)
    requires ids != {} && ids <= t.Keys && Valid(t)
    ensures top in ids && forall id :: id in ids && id != top ==> Less(KeyOf(t[id]), KeyOf(t[top]))
    decreases |ids|
  {
    var some :| some in ids;
    if ids == {some} {
      top := some;
    } else {
      var rest := ids - {some};
      assert ids == rest + {some};
      top := GreatestExists(t, rest);
      if Less(KeyOf(t[top]), KeyOf(t[some])) {
        top := some;
      }
    }
  }

  /** Two pages of the same query are equal: the key is unique, so the order is total. */
  lemma {:induction false} PageUnique(t: Table, cursor: Option<Key>, limit: nat, p: seq<Note>, q: seq<Note>, k: nat)
    requires Valid(t) && IsPage(t, cursor, limit, p) && IsPage(t, cursor, limit, q)
    requires k <= |p|
    ensures k <= |q| && p[..k] == q[..k]
  {
    if k == 0 {
    } else {
      PageUnique(t, cursor, limit, p, q, k - 1);
      NextRowAgrees(t, cursor, limit, p, q, k - 1);
      assert p[..k] == p[..k - 1] + [p[k - 1]];
      assert q[..k] == q[..k - 1] + [q[k - 1]];
    }
  }

  lemma NextRowAgrees(t: Table, cursor: Option<Key>, limit: nat, p: seq<Note>, q: seq<Note>, k: nat)
    requires Valid(t) && IsPage(t, cursor, limit, p) && IsPage(t, cursor, limit, q)
    requires k < |p| && k <= |q| && p[..k] == q[..k]
    ensures k < |q| && p[k] == q[k]
  {
    RowPresent(t, cursor, limit, p, q, k);
    var i :| 0 <= i < |q| && q[i] == p[k];
    NotAmongFirst(p, q, k, i);
    RowPresent(t, cursor, limit, q, p, k);
    var j :| 0 <= j < |p| && p[j] == q[k];
    NotAmongFirst(q, p, k, j);
  }

  /** A row of one page, at a place the other page reaches or stops short of, is in the other page. */
  lemma RowPresent(t: Table, cursor: Option<Key>, limit: nat, p: seq<Note>, q: seq<Note>, k: nat)
    requires Valid(t) && IsPage(t, cursor, limit, p) && IsPage(t, cursor, limit, q)
    requires k < |p| && k <= |q| && p[..k] == q[..k]
    ensures exists i :: 0 <= i < |q| && q[i] == p[k]
  {
    assert t[p[k].id] == p[k];
    if |q| == limit {
      assert t[q[k].id] == q[k];
      AgreeingPrefix(p, q, k);
      AgreeingPrefix(q, p, k);
    }
  }

  lemma AgreeingPrefix(p: seq<Note>, q: seq<Note>, k: nat)
    requires k <= |p| && k <= |q| && p[..k] == q[..k]
    ensures forall i :: 0 <= i < k ==> p[i] == q[i]
  {
    forall i | 0 <= i < k
      ensures p[i] == q[i]
    {
      assert p[..k][i] == q[..k][i];
    }
  }

  lemma NotAmongFirst(p: seq<Note>, q: seq<Note>, k: nat, i: nat)
    requires Descending(p) && k < |p| && k <= |q| && i < |q| && p[..k] == q[..k] && q[i] == p[k]
    ensures i >= k
  {
    AgreeingPrefix(p, q, k);
  }

  ghost function MatchingIds(t: Table, cursor: Option<Key>, page: seq<Note>): set<nat> {
    set id | id in t && Matches(cursor, t[id]) && t[id] !in page
  }

  /** Appending the greatest remaining match turns a full page into a page one row longer. */
  lemma PageGrows(t: Table, cursor: Option<Key>, page: seq<Note>, top: nat)
    requires Valid(t) && IsPage(t, cursor, |page|, page)
    requires top in MatchingIds(t, cursor, page)
    requires forall id :: id in MatchingIds(t, cursor, page) && id != top ==> Less(KeyOf(t[id]), KeyOf(t[top]))
    ensures IsPage(t, cursor, |page| + 1, page + [t[top]])
  {
    var longer := page + [t[top]];
    forall id | id in t && Matches(cursor, t[id]) && t[id] !in longer
      ensures forall i :: 0 <= i < |longer| ==> Less(KeyOf(t[id]), KeyOf(longer[i]))
    {
      assert t[id] !in page && id in MatchingIds(t, cursor, page);
      assert t[top] in longer;
    }
  }

  lemma FewerLeft(t: Table, cursor: Option<Key>, page: seq<Note>, top: nat)
    requires Valid(t) && top in MatchingIds(t, cursor, page)
    ensures MatchingIds(t, cursor, page + [t[top]]) == MatchingIds(t, cursor, page) - {top}
  {
  }

  lemma NothingLeft(t: Table, cursor: Option<Key>, limit: nat, page: seq<Note>)
    requires IsPage(t, cursor, |page|, page) && |page| <= limit
    requires |page| == limit || MatchingIds(t, cursor, page) == {}
    ensures IsPage(t, cursor, limit, page)
  {
    assert forall id :: id in t && Matches(cursor, t[id]) && t[id] !in page ==> id in MatchingIds(t, cursor, page);
  }

  lemma {:induction false} PageExists(t: Table, cursor: Option<Key>, limit: nat) returns (page: seq<Note>)
    requires Valid(t)
    ensures IsPage(t, cursor, limit, page)
    decreases limit
  {
    if limit == 0 {
      page := [];
    } else {
      page := PageExists(t, cursor, limit - 1);
      var left := MatchingIds(t, cursor, page);
      if left != {} {
        var some :| some in left;
        var top := GreatestExists(t, left);
        PageGrows(t, cursor, page, top);
        page := page + [t[top]];
      } else {
        assert forall id :: id in t && Matches(cursor, t[id]) && t[id] !in page ==> id in left;
      }
    }
  }

  lemma SomePage(t: Table, cursor: Option<Key>, limit: nat)
    requires Valid(t)
    ensures exists page :: IsPage(t, cursor, limit, page)
  {
    var page := PageExists(t, cursor, limit);
  }

  /** The answer to the page query. */
  ghost function Page(t: Table, cursor: Option<Key>, limit: nat): (page: seq<Note>)
    requires Valid(t)
    ensures IsPage(t, cursor, limit, page)
  {
    SomePage(t, cursor, limit);
    var page :| IsPage(t, cursor, limit, page);
    page
  }

  /** Newest first, and among notes of one time by falling id; after a cursor only what comes after it in that order. */
  lemma PageIsNewestFirst(t: Table, cursor: Option<Key>, limit: nat)
    requires Valid(t)
    ensures var page := Page(t, cursor, limit);
            && (forall i, j :: 0 <= i < j < |page| ==>
                  || page[i].createdAt > page[j].createdAt
                  || (page[i].createdAt == page[j].createdAt && page[i].id > page[j].id))
            && (cursor.Some? ==> forall i :: 0 <= i < |page| ==>
                  || page[i].createdAt < cursor.value.createdAt
                  || (page[i].createdAt == cursor.value.createdAt && page[i].id < cursor.value.id))
  {
    assert IsPage(t, cursor, limit, Page(t, cursor, limit));
  }

  lemma PageIsUnique(t: Table, cursor: Option<Key>, limit: nat, page: seq<Note>)
    requires Valid(t) && IsPage(t, cursor, limit, page)
    ensures page == Page(t, cursor, limit)
  {
    var q := Page(t, cursor, limit);
    PageUnique(t, cursor, limit, page, q, |page|);
    PageUnique(t, cursor, limit, q, page, |q|);
    assert page[..|page|] == page && q[..|q|] == q;
  }
}
