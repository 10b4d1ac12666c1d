/** Cursor pagination over a table that changes between pages: PullChanges
    (server/internal/sync/service.go) and listTransactionsIncremental (server/internal/transaction/service.go). */
module Paging {
  import opened PageToken
  import opened Wrappers

  datatype Row<T> = Row(key: Key, body: T)

  datatype Page<T> = Page(rows: seq<Row<T>>, hasMore: bool, next: Option<Key>)

  // ---------------------------------------------------------------- the query

  predicate Past(key: Key, cursor: Option<Key>) {
    cursor.None? || Before(cursor.value, key)
  }

  /** WHERE filter AND (time, id) > cursor */
  function Matching<T>(table: seq<Row<T>>, filter: Row<T> -> bool, cursor: Option<Key>): seq<Row<T>> {
    if table == [] then []
    else
      var last := table[|table| - 1];
      Matching(table[..|table| - 1], filter, cursor) + (if filter(last) && Past(last.key, cursor) then [last] else [])
  }

  function Insert<T>(row: Row<T>, sorted: seq<Row<T>>): seq<Row<T>> {
    if sorted == [] || Before(row.key, sorted[0].key) then [row] + sorted
    else [sorted[0]] + Insert(row, sorted[1..])
  }

  /** ORDER BY time ASC, id ASC */
  function Ordered<T>(rows: seq<Row<T>>): seq<Row<T>> {
    if rows == [] then [] else Insert(rows[0], Ordered(rows[1..]))
  }

  function Selected<T>(table: seq<Row<T>>, filter: Row<T> -> bool, cursor: Option<Key>): seq<Row<T>> {
    Ordered(Matching(table, filter, cursor))
  }

  /** At most `size` rows, and the cursor of the last one when there are more. */
  function PageFrom<T>(all: seq<Row<T>>, size: nat): Page<T>
    requires size > 0
  {
    if |all| > size then Page(all[..size], true, Some(all[size - 1].key)) else Page(all, false, None)
  }

  function PageOf<T>(table: seq<Row<T>>, filter: Row<T> -> bool, cursor: Option<Key>, size: nat): Page<T>
    requires size > 0
  {
    PageFrom(Selected(table, filter, cursor), size)
  }

  /** LIMIT size + 1: one row more than the page is enough to tell what the whole result would. */
  method BuildPage<T>(ghost all: seq<Row<T>>, fetched: seq<Row<T>>, size: nat) returns (page: Page<T>)
    requires size > 0 && fetched == if |all| > size then all[..size + 1] else all
    ensures page == PageFrom(all, size)
  {
    var operations := [];
    for i := 0 to |fetched|
      invariant operations == fetched[..i]
    {
      operations := operations + [fetched[i]];
    }
    var next, hasMore := None, false;
    if |operations| > size {
      hasMore := true;
      next := Some(operations[size - 1].key);
      operations := operations[..size];
    }
    return Page(operations, hasMore, next);
  }

  // ---------------------------------------------------------------- what the query returns

  /** Strictly increasing, so no row twice. */
  ghost predicate Ascending<T(!new)>(rows: seq<Row<T>>) {
    forall i, j :: 0 <= i < j < |rows| ==> Before(rows[i].key, rows[j].key)
  }

  /** The id column is a primary key. */
  ghost predicate UniqueIds<T(!new)>(table: seq<Row<T>>) {
    forall i, j :: 0 <= i < j < |table| ==> table[i].key.id != table[j].key.id
  }

  /** Stamps fit UnixNano, years 1678 to 2262, and ids are UUIDs. */
  ghost predicate InRange<T(!new)>(table: seq<Row<T>>) {
    forall row :: row in table ==> INT64_MIN <= row.key.time <= INT64_MAX && row.key.id < UUIDS
  }

  ghost predicate SameRows<T(!new)>(a: seq<Row<T>>, b: seq<Row<T>>) {
    forall row :: row in a <==> row in b
  }

  lemma {:induction false} MatchingRows<T(!new)>(table: seq<Row<T>>, filter: Row<T> -> bool, cursor: Option<Key>)
    ensures forall row :: row in Matching(table, filter, cursor) <==>
              row in table && filter(row) && Past(row.key, cursor)
    ensures UniqueIds(table) ==> UniqueIds(Matching(table, filter, cursor))
  {
    if table != [] {
      var before, last := table[..|table| - 1], table[|table| - 1];
      MatchingRows(before, filter, cursor);
      assert table == before + [last];
      var kept := Matching(before, filter, cursor);
      forall i | 0 <= i < |kept| && UniqueIds(table)
        ensures kept[i].key.id != last.key.id
      {
        assert kept[i] in before;
      }
    }
  }

  lemma {:induction false} InsertKeepsOrder<T(!new)>(row: Row<T>, sorted: seq<Row<T>>)
    requires Ascending(sorted) && forall other :: other in sorted ==> other.key.id != row.key.id
    ensures Ascending(Insert(row, sorted))
    ensures forall other :: other in Insert(row, sorted) <==> other == row || other in sorted
  {
    if sorted == [] || Before(row.key, sorted[0].key) {
      assert Insert(row, sorted) == [row] + sorted;
    } else {
      InsertKeepsOrder(row, sorted[1..]);
      assert sorted[0] in sorted;
      var rest := Insert(row, sorted[1..]);
      forall j | 0 <= j < |rest|
        ensures Before(sorted[0].key, rest[j].key)
      {
        assert rest[j] in rest;
      }
    }
  }

  lemma {:induction false} OrderedRows<T(!new)>(rows: seq<Row<T>>)
    requires UniqueIds(rows)
    ensures Ascending(Ordered(rows)) && SameRows(Ordered(rows), rows)
  {
    if rows != [] {
      assert UniqueIds(rows[1..]);
      OrderedRows(rows[1..]);
      forall other | other in Ordered(rows[1..])
        ensures other.key.id != rows[0].key.id
      {
        assert other in rows[1..];
        var k :| 0 <= k < |rows[1..]| && rows[1..][k] == other;
        assert rows[k + 1] == other;
      }
      InsertKeepsOrder(rows[0], Ordered(rows[1..]));
      assert rows == [rows[0]] + rows[1..];
    }
  }

  lemma SelectedRows<T(!new)>(table: seq<Row<T>>, filter: Row<T> -> bool, cursor: Option<Key>)
    requires UniqueIds(table)
    ensures var all := Selected(table, filter, cursor);
            && Ascending(all)
            && forall row :: row in all <==> row in table && filter(row) && Past(row.key, cursor)
  {
    MatchingRows(table, filter, cursor);
    OrderedRows(Matching(table, filter, cursor));
  }

  lemma PagePrefix<T(!new)>(all: seq<Row<T>>, size: nat)
    requires Ascending(all) && size > 0
    ensures var page := PageFrom(all, size);
            && Ascending(page.rows)
            && (page.hasMore <==> page.next.Some?)
            && (page.hasMore ==> exists row :: row in all && row.key == page.next.value)
            && forall row :: row in page.rows <==> row in all && (page.hasMore ==> !Past(row.key, page.next))
  {
    var page := PageFrom(all, size);
    if page.hasMore {
      assert all[size - 1] in all;
      forall row
        ensures row in page.rows <==> row in all && !Past(row.key, page.next)
      {
        if row in all {
          var k :| 0 <= k < |all| && all[k] == row;
          assert k < size ==> page.rows[k] == row;
        }
      }
    }
  }

  /** A page is in order, past the cursor, and complete up to the cursor it hands out. */
  lemma PageIsPrefix<T(!new)>(table: seq<Row<T>>, filter: Row<T> -> bool, cursor: Option<Key>, size: nat)
    requires UniqueIds(table) && size > 0
    ensures var page := PageOf(table, filter, cursor, size);
            && Ascending(page.rows)
            && (page.hasMore <==> page.next.Some?)
            && (page.hasMore ==> exists row :: row in table && row.key == page.next.value)
            && (page.hasMore ==> Past(page.next.value, cursor))
            && forall row :: row in page.rows <==>
                 row in table && filter(row) && Past(row.key, cursor)
                 && (page.hasMore ==> !Past(row.key, page.next))
  {
    hide PageFrom, Selected, Ascending, UniqueIds;
    SelectedRows(table, filter, cursor);
    PagePrefix(Selected(table, filter, cursor), size);
  }

  // ---------------------------------------------------------------- walking tokens

  /** What the query of one page sees: the table and the condition, as they are then. */
  datatype View<!T> = View(table: seq<Row<T>>, filter: Row<T> -> bool)

  predicate Shows<T(==)>(v: View<T>, row: Row<T>) {
    row in v.table && v.filter(row)
  }

  function PageAt<T>(v: View<T>, cursor: Option<Key>, size: nat): Page<T>
    requires size > 0
  {
    PageOf(v.table, v.filter, cursor, size)
  }

  /** What a client receives that follows tokens until has_more is false; views[i] is what page i sees. */
  function Walk<T>(views: seq<View<T>>, cursor: Option<Key>, size: nat, sep: char): seq<Row<T>>
    requires size > 0
    decreases |views|
  {
    if views == [] then []
    else
      var page := PageAt(views[0], cursor, size);
      page.rows + (if page.hasMore then Walk(views[1..], Resume(page.next.value, sep), size, sep) else [])
  }

  /** The walk reached a page without has_more. */
  predicate Finished<T>(views: seq<View<T>>, cursor: Option<Key>, size: nat, sep: char)
    requires size > 0
    decreases |views|
  {
    views != []
    && var page := PageAt(views[0], cursor, size);
       page.hasMore ==> Finished(views[1..], Resume(page.next.value, sep), size, sep)
  }

  ghost predicate Keyed<T(!new)>(views: seq<View<T>>) {
    forall i :: 0 <= i < |views| ==> UniqueIds(views[i].table) && InRange(views[i].table)
  }

  lemma JoinAscending<T(!new)>(a: seq<Row<T>>, b: seq<Row<T>>, cursor: Option<Key>)
    requires Ascending(a) && Ascending(b) && cursor.Some?
    requires forall row :: row in a ==> !Past(row.key, cursor)
    requires forall row :: row in b ==> Past(row.key, cursor)
    ensures Ascending(a + b)
  {
    forall i, j | 0 <= i < |a| && 0 <= j < |b|
      ensures Before(a[i].key, b[j].key)
    {
      assert a[i] in a && b[j] in b;
    }
  }

  /** The cursor of a page survives the token. */
  lemma NextResumes<T(!new)>(v: View<T>, cursor: Option<Key>, size: nat, sep: char)
    requires size > 0 && IsSeparator(sep) && UniqueIds(v.table) && InRange(v.table) && PageAt(v, cursor, size).hasMore
    ensures var page := PageAt(v, cursor, size);
            page.next.Some? && Resume(page.next.value, sep) == page.next
  {
    PageIsPrefix(v.table, v.filter, cursor, size);
    TokenRoundTrip(PageAt(v, cursor, size).next.value, sep);
  }

  /** However tables and conditions change between pages: everything comes once, in order, from past the cursor
      and from what some page saw; and what every page sees is delivered. */
  lemma {:induction false} WalkExact<T(!new)>(views: seq<View<T>>, cursor: Option<Key>, size: nat, sep: char)
    requires size > 0 && IsSeparator(sep) && Keyed(views) && Finished(views, cursor, size, sep)
    ensures var delivered := Walk(views, cursor, size, sep);
            && Ascending(delivered)
            && (forall row :: row in delivered ==>
                  Past(row.key, cursor) && exists i :: 0 <= i < |views| && Shows(views[i], row))
            && (forall row: Row<T> ::
                  Past(row.key, cursor) && (forall i :: 0 <= i < |views| ==> Shows(views[i], row)) ==>
                  row in delivered)
    decreases |views|
  {
    hide PageOf, InRange, UniqueIds, Resume;
    var page := PageAt(views[0], cursor, size);
    PageIsPrefix(views[0].table, views[0].filter, cursor, size);
    assert forall row :: row in page.rows ==> Shows(views[0], row);
    if page.hasMore {
      NextResumes(views[0], cursor, size, sep);
      WalkExact(views[1..], page.next, size, sep);
      var rest := Walk(views[1..], page.next, size, sep);
      hide PageAt, Finished, Walk;
      JoinAscending(page.rows, rest, page.next);
      forall row | row in rest
        ensures Past(row.key, cursor) && exists i :: 0 <= i < |views| && Shows(views[i], row)
      {
        var i :| 0 <= i < |views[1..]| && Shows(views[1..][i], row);
        assert Shows(views[i + 1], row);
      }
      forall row: Row<T> | Past(row.key, cursor) && forall i :: 0 <= i < |views| ==> Shows(views[i], row)
        ensures row in page.rows + rest
      {
        assert Shows(views[0], row);
        forall i | 0 <= i < |views[1..]|
          ensures Shows(views[1..][i], row)
        {
          assert Shows(views[i + 1], row);
        }
      }
    }
  }

  /** What a page does not see and its token leaves behind is never delivered. */
  lemma BehindIsMissed<T(!new)>(views: seq<View<T>>, cursor: Option<Key>, size: nat, sep: char, row: Row<T>)
    requires size > 0 && IsSeparator(sep) && Keyed(views) && Finished(views, cursor, size, sep)
    requires var page := PageAt(views[0], cursor, size);
             page.hasMore && !Shows(views[0], row) && !Past(row.key, page.next)
    ensures row !in Walk(views, cursor, size, sep)
  {
    var page := PageAt(views[0], cursor, size);
    PageIsPrefix(views[0].table, views[0].filter, cursor, size);
    TokenRoundTrip(page.next.value, sep);
    WalkExact(views[1..], page.next, size, sep);
  }

  // ---------------------------------------------------------------- PullChanges

  /** A row of sync_operations. */
  datatype SyncRow = SyncRow(user: string, clientId: string, entityType: string, entity: string)

  /** What the family query joins: members, the family's accounts, and the transactions on those accounts. */
  datatype Family = Family(members: set<string>, accounts: set<string>, txns: set<string>)

  datatype Scope = Personal(user: string) | InFamily(family: Family)

  predicate InScope(scope: Scope, row: SyncRow) {
    match scope
    case Personal(user) => row.user == user
    case InFamily(family) =>
      && row.user in family.members
      && (row.entityType == "transaction" ==> row.entity in family.txns)
      && (row.entityType == "account" ==> row.entity in family.accounts)
  }

  /** In scope AND timestamp > since AND client_id != the caller's own */
  function PullFilter(scope: Scope, since: int, clientId: string): Row<SyncRow> -> bool {
    (row: Row<SyncRow>) =>
      && InScope(scope, row.body) && row.key.time > since
      && row.body.clientId != (if clientId == "" then "unknown" else clientId)
  }

  /** Default 100, at most 500. */
  function PullSize(requested: int): nat {
    if requested <= 0 then 100 else if requested > 500 then 500 else requested
  }

  /** A pull in progress: log rows are only ever inserted, anywhere in the order; members and accounts may change. */
  ghost predicate Pulls(views: seq<View<SyncRow>>, scopes: seq<Scope>, since: int, clientId: string) {
    && Keyed(views) && |scopes| == |views|
    && (forall i :: 0 <= i < |views| ==> views[i].filter == PullFilter(scopes[i], since, clientId))
    && (forall i, j, row :: 0 <= i <= j < |views| && row in views[i].table ==> row in views[j].table)
  }

  /** A full pull delivers every operation there at its start and in scope throughout exactly once, in (timestamp, id)
      order, and any other in scope at some page, inserted meanwhile or not, at most once. */
  lemma PullExact(views: seq<View<SyncRow>>, scopes: seq<Scope>, since: int, clientId: string, requested: int)
    requires Pulls(views, scopes, since, clientId) && Finished(views, None, PullSize(requested), ':')
    ensures var delivered := Walk(views, None, PullSize(requested), ':');
            && (forall row ::
                  && row in views[0].table
                  && (forall i :: 0 <= i < |scopes| ==> PullFilter(scopes[i], since, clientId)(row)) ==>
                  row in delivered)
            && (forall i, j :: 0 <= i < j < |delivered| ==> Before(delivered[i].key, delivered[j].key))
            && (forall row :: row in delivered ==>
                  row in views[|views| - 1].table
                  && exists i :: 0 <= i < |scopes| && PullFilter(scopes[i], since, clientId)(row))
  {
    WalkExact(views, None, PullSize(requested), ':');
    var delivered := Walk(views, None, PullSize(requested), ':');
    hide Finished, Walk, PullFilter;
    forall row | row in views[0].table && forall i :: 0 <= i < |scopes| ==> PullFilter(scopes[i], since, clientId)(row)
      ensures row in delivered
    {
      forall i | 0 <= i < |views|
        ensures Shows(views[i], row)
      {
        assert PullFilter(scopes[i], since, clientId)(row);
      }
    }
    forall row | row in delivered
      ensures row in views[|views| - 1].table
      ensures exists i :: 0 <= i < |scopes| && PullFilter(scopes[i], since, clientId)(row)
    {
      var i :| 0 <= i < |views| && Shows(views[i], row);
      assert PullFilter(scopes[i], since, clientId)(row);
    }
  }

}
