/** Incremental listing of rows that change while they are listed (server/internal/transaction/service.go,
    listTransactionsIncremental): the client ends up with the server's rows, tombstones included. */
module Incremental {
  import opened PageToken
  import opened Paging
  import opened Wrappers

  /** Between two pages every row that changed or appeared was stamped later than all stamps before. */
  ghost predicate Restamped<T(!new)>(before: seq<Row<T>>, after: seq<Row<T>>) {
    forall row :: row in after && row !in before ==> forall was :: was in before ==> was.key.time < row.key.time
  }

  /** The rows change; the condition does not. */
  ghost predicate Evolves<T(!new)>(views: seq<View<T>>, filter: Row<T> -> bool) {
    && Keyed(views)
    && (forall i :: 0 <= i < |views| ==> views[i].filter == filter)
    && (forall i :: 0 <= i < |views| - 1 ==> Restamped(views[i].table, views[i + 1].table))
  }

  /** The client keeps the last copy of each row it is sent. */
  function Kept<T>(copies: map<nat, Row<T>>, rows: seq<Row<T>>): map<nat, Row<T>> {
    if rows == [] then copies
    else Kept(copies, rows[..|rows| - 1])[rows[|rows| - 1].key.id := rows[|rows| - 1]]
  }

  function Synced<T>(copies: map<nat, Row<T>>, views: seq<View<T>>, cursor: Option<Key>, size: nat, sep: char)
    : map<nat, Row<T>>
    requires size > 0
    decreases |views|
  {
    if views == [] then copies
    else
      var page := PageAt(views[0], cursor, size);
      var now := Kept(copies, page.rows);
      if page.hasMore then Synced(now, views[1..], Resume(page.next.value, sep), size, sep) else now
  }

  /** The table at the page where the walk ends. */
  function FinalTable<T>(views: seq<View<T>>, cursor: Option<Key>, size: nat, sep: char): seq<Row<T>>
    requires size > 0 && Finished(views, cursor, size, sep)
    decreases |views|
  {
    var page := PageAt(views[0], cursor, size);
    if page.hasMore then FinalTable(views[1..], Resume(page.next.value, sep), size, sep) else views[0].table
  }

  /** The client is up to date on every matching row at or before the cursor. */
  ghost predicate UpTo<T(!new)>(copies: map<nat, Row<T>>, v: View<T>, cursor: Option<Key>) {
    forall row :: Shows(v, row) && !Past(row.key, cursor) ==> row.key.id in copies && copies[row.key.id] == row
  }

  lemma {:induction false} KeptRows<T(!new)>(copies: map<nat, Row<T>>, rows: seq<Row<T>>, table: seq<Row<T>>,
                                             row: Row<T>)
    requires UniqueIds(table) && row in table && forall other :: other in rows ==> other in table
    requires row in rows || (row.key.id in copies && copies[row.key.id] == row)
    ensures row.key.id in Kept(copies, rows) && Kept(copies, rows)[row.key.id] == row
  {
    if rows != [] {
      var before, last := rows[..|rows| - 1], rows[|rows| - 1];
      assert rows == before + [last];
      if last != row {
        SameIdSameRow(table, last, row);
        KeptRows(copies, before, table, row);
      }
    }
  }

  lemma SameIdSameRow<T(!new)>(table: seq<Row<T>>, a: Row<T>, b: Row<T>)
    requires UniqueIds(table) && a in table && b in table
    ensures a.key.id == b.key.id ==> a == b
  {}

  lemma PageBringsUpTo<T(!new)>(copies: map<nat, Row<T>>, v: View<T>, cursor: Option<Key>, size: nat)
    requires UniqueIds(v.table) && size > 0 && UpTo(copies, v, cursor)
    ensures var page := PageAt(v, cursor, size);
            var now := Kept(copies, page.rows);
            && (page.hasMore ==> UpTo(now, v, page.next))
            && (!page.hasMore ==> forall row :: Shows(v, row) ==> row.key.id in now && now[row.key.id] == row)
  {
    PageIsPrefix(v.table, v.filter, cursor, size);
    var page := PageAt(v, cursor, size);
    var now := Kept(copies, page.rows);
    hide PageAt, PageOf, Kept;
    forall row | Shows(v, row) && (page.hasMore ==> !Past(row.key, page.next))
      ensures row.key.id in now && now[row.key.id] == row
    {
      KeptRows(copies, page.rows, v.table, row);
    }
  }

  /** Rows changed since the page lie past its cursor. */
  lemma ChangesLieAhead<T(!new)>(copies: map<nat, Row<T>>, before: View<T>, after: View<T>, cursor: Option<Key>)
    requires Restamped(before.table, after.table) && before.filter == after.filter && UpTo(copies, before, cursor)
    requires cursor.Some? && exists row :: row in before.table && row.key == cursor.value
    ensures UpTo(copies, after, cursor)
  {
    var at :| at in before.table && at.key == cursor.value;
    forall row | Shows(after, row) && !Past(row.key, cursor)
      ensures row.key.id in copies && copies[row.key.id] == row
    {
      assert Shows(before, row);
    }
  }

  /** If changes stamp rows later than every stamp before, a finished walk leaves the client's copies equal to
      the matching rows of the table its last page saw. */
  lemma {:induction false} SyncConverges<T(!new)>(copies: map<nat, Row<T>>, views: seq<View<T>>, filter: Row<T> -> bool,
                                                  cursor: Option<Key>, size: nat, sep: char)
    requires size > 0 && IsSeparator(sep) && Evolves(views, filter) && Finished(views, cursor, size, sep)
    requires UpTo(copies, views[0], cursor)
    ensures var final, copied := FinalTable(views, cursor, size, sep), Synced(copies, views, cursor, size, sep);
            forall row :: row in final && filter(row) ==> row.key.id in copied && copied[row.key.id] == row
    decreases |views|
  {
    var page := PageAt(views[0], cursor, size);
    PageBringsUpTo(copies, views[0], cursor, size);
    PageIsPrefix(views[0].table, views[0].filter, cursor, size);
    if page.hasMore {
      var now := Kept(copies, page.rows);
      assert views[1..] != [];
      assert Restamped(views[0].table, views[0 + 1].table);
      TokenRoundTrip(page.next.value, sep);
      hide PageAt, PageOf, Kept, UpTo;
      ChangesLieAhead(now, views[0], views[1], page.next);
      RestEvolves(views, filter);
      SyncConverges(now, views[1..], filter, page.next, size, sep);
    } else {
      assert forall row :: row in views[0].table && filter(row) ==> Shows(views[0], row);
    }
  }

  lemma RestEvolves<T(!new)>(views: seq<View<T>>, filter: Row<T> -> bool)
    requires views != [] && Evolves(views, filter)
    ensures Evolves(views[1..], filter)
  {
    forall i | 0 <= i < |views[1..]| - 1
      ensures Restamped(views[1..][i].table, views[1..][i + 1].table)
    {
      assert Restamped(views[i + 1].table, views[i + 1 + 1].table);
    }
  }

  /** A transaction row; the key's time is updated_at. */
  datatype TxnRow = TxnRow(user: string, account: string, deleted: bool, content: string)

  /** One's own transactions on personal accounts, or everybody's on a family's accounts. */
  datatype Owner = User(user: string) | FamilyOf(family: string)

  /** The joined accounts: each one's family, if it has one. */
  type Accounts = map<string, Option<string>>

  /** The condition apart from updated_at and the tombstones. */
  predicate Listed(owner: Owner, accounts: Accounts, account: Option<string>, row: TxnRow) {
    && row.account in accounts
    && (match owner
        case User(user) => row.user == user && accounts[row.account].None?
        case FamilyOf(family) => accounts[row.account] == Some(family))
    && (account.None? || row.account == account.value)
  }

  function ListFilter(owner: Owner, accounts: Accounts, account: Option<string>, since: int, includeDeleted: bool)
    : Row<TxnRow> -> bool
  {
    (row: Row<TxnRow>) =>
      Listed(owner, accounts, account, row.body) && row.key.time > since && (includeDeleted || !row.body.deleted)
  }

  /** 1 to 100, else 20. */
  function ListSize(requested: int): nat {
    if 0 < requested <= 100 then requested else 20
  }

  /** After a full walk with tombstones during which every changed transaction was stamped anew, the client's last copy
      of each listed row updated since `since` is the server's row at the final page, deletions included;
      as long as no account changes its family meanwhile. */
  lemma IncrementalConverges(views: seq<View<TxnRow>>, owner: Owner, accounts: Accounts, account: Option<string>,
                             since: int, requested: int)
    requires Evolves(views, ListFilter(owner, accounts, account, since, true))
    requires Finished(views, None, ListSize(requested), '|')
    ensures var size := ListSize(requested);
            var final, copied := FinalTable(views, None, size, '|'), Synced(map[], views, None, size, '|');
            forall row :: row in final && Listed(owner, accounts, account, row.body) && row.key.time > since ==>
              row.key.id in copied && copied[row.key.id] == row
  {
    var filter := ListFilter(owner, accounts, account, since, true);
    SyncConverges(map[], views, filter, None, ListSize(requested), '|');
    assert forall row: Row<TxnRow> :: Listed(owner, accounts, account, row.body) && row.key.time > since ==>
             filter(row);
  }

  // ---------------------------------------------------------------- changes that are not stamped

  /** A copy at or before the cursor is never replaced by what later pages see under the same key. */
  lemma {:induction false} CopyStays<T(!new)>(copies: map<nat, Row<T>>, views: seq<View<T>>, cursor: Option<Key>,
                                              size: nat, sep: char, key: Key)
    requires size > 0 && IsSeparator(sep) && Keyed(views) && !Past(key, cursor) && key.id in copies
    requires forall i, row :: 0 <= i < |views| && row in views[i].table && row.key.id == key.id ==> row.key == key
    ensures var copied := Synced(copies, views, cursor, size, sep);
            key.id in copied && copied[key.id] == copies[key.id]
    decreases |views|
  {
    hide PageOf, InRange, UniqueIds, Resume, Kept;
    if views != [] {
      var page := PageAt(views[0], cursor, size);
      PageIsPrefix(views[0].table, views[0].filter, cursor, size);
      assert forall row :: row in page.rows ==> row.key.id != key.id;
      KeptOthers(copies, page.rows, key.id);
      if page.hasMore {
        NextResumes(views[0], cursor, size, sep);
        assert forall i, row :: 0 <= i < |views[1..]| && row in views[1..][i].table ==> row in views[i + 1].table;
        CopyStays(Kept(copies, page.rows), views[1..], page.next, size, sep, key);
      }
    }
  }

  lemma {:induction false} KeptOthers<T(!new)>(copies: map<nat, Row<T>>, rows: seq<Row<T>>, id: nat)
    requires id in copies && forall row :: row in rows ==> row.key.id != id
    ensures id in Kept(copies, rows) && Kept(copies, rows)[id] == copies[id]
  {
    if rows != [] {
      assert rows[|rows| - 1] in rows;
      KeptOthers(copies, rows[..|rows| - 1], id);
    }
  }

  lemma {:induction false} FinalIsATable<T(!new)>(views: seq<View<T>>, cursor: Option<Key>, size: nat, sep: char,
                                                  row: Row<T>)
    requires size > 0 && Finished(views, cursor, size, sep)
    requires forall i :: 0 <= i < |views| ==> row in views[i].table
    ensures row in FinalTable(views, cursor, size, sep)
    decreases |views|
  {
    var page := PageAt(views[0], cursor, size);
    if page.hasMore {
      FinalIsATable(views[1..], Resume(page.next.value, sep), size, sep, row);
    }
  }

  /** A row changed after its page without a new stamp, as the gRPC category merge changes it: the walk ends with the
      client holding the old row and the server the new one. */
  lemma UnstampedIsMissed<T(!new)>(copies: map<nat, Row<T>>, views: seq<View<T>>, cursor: Option<Key>, size: nat,
                                   sep: char, was: Row<T>, changed: Row<T>)
    requires size > 0 && IsSeparator(sep) && Keyed(views) && Finished(views, cursor, size, sep)
    requires PageAt(views[0], cursor, size).hasMore && was in PageAt(views[0], cursor, size).rows
    requires changed.key == was.key && changed != was && forall i :: 0 < i < |views| ==> changed in views[i].table
    ensures var copied := Synced(copies, views, cursor, size, sep);
            was.key.id in copied && copied[was.key.id] == was
    ensures changed in FinalTable(views, cursor, size, sep)
    ensures !Evolves(views, views[0].filter)
  {
    hide PageAt, PageOf, InRange, Resume, Kept, UniqueIds, Evolves;
    var page, rest := PageAt(views[0], cursor, size), views[1..];
    KeptFromPage(copies, views[0], cursor, size, was);
    NextResumes(views[0], cursor, size, sep);
    assert Keyed(rest);
    forall i, row | 0 <= i < |rest| && row in rest[i].table && row.key.id == was.key.id
      ensures row.key == was.key
    {
      assert rest[i] == views[i + 1];
      SameIdSameRow(rest[i].table, row, changed);
    }
    CopyStays(Kept(copies, page.rows), rest, page.next, size, sep, was.key);
    FinalIsATable(rest, page.next, size, sep, changed);
    NotRestamped(views, was, changed);
  }

  /** A row on a page is kept, and the page's cursor is past it. */
  lemma KeptFromPage<T(!new)>(copies: map<nat, Row<T>>, v: View<T>, cursor: Option<Key>, size: nat, was: Row<T>)
    requires size > 0 && UniqueIds(v.table) && was in PageAt(v, cursor, size).rows
    ensures var page := PageAt(v, cursor, size);
            var now := Kept(copies, page.rows);
            && was in v.table && was.key.id in now && now[was.key.id] == was
            && (page.hasMore ==> !Past(was.key, page.next))
  {
    PageIsPrefix(v.table, v.filter, cursor, size);
    hide PageOf, Kept, UniqueIds;
    KeptRows(copies, PageAt(v, cursor, size).rows, v.table, was);
  }

  lemma NotRestamped<T(!new)>(views: seq<View<T>>, was: Row<T>, changed: Row<T>)
    requires |views| > 1 && UniqueIds(views[0].table) && was in views[0].table && changed in views[1].table
    requires changed.key == was.key && changed != was
    ensures !Evolves(views, views[0].filter)
  {
    if changed in views[0].table {
      SameIdSameRow(views[0].table, was, changed);
    }
    assert !Restamped(views[0].table, views[0 + 1].table);
  }

  lemma TwoRowsOnePage<T(!new)>(v: View<T>, first: Row<T>, second: Row<T>)
    requires v.table == [first, second] && v.filter(first) && v.filter(second)
    requires first.key.time < second.key.time && first.key.id != second.key.id
    ensures PageAt(v, None, 1) == Page([first], true, Some(first.key))
  {
    SelectedRows(v.table, v.filter, None);
    var all := Selected(v.table, v.filter, None);
    hide Selected;
    assert first in v.table && second in v.table;
    assert first in all && second in all;
    assert all[0] in all;
    assert all[0] == first;
    assert |all| > 1;
  }

  lemma LastRowOnePage<T(!new)>(v: View<T>, first: Row<T>, second: Row<T>)
    requires v.table == [first, second] && v.filter(second)
    requires first.key.time < second.key.time && first.key.id != second.key.id
    ensures !PageAt(v, Some(first.key), 1).hasMore
  {
    SelectedRows(v.table, v.filter, Some(first.key));
    var all := Selected(v.table, v.filter, Some(first.key));
    hide Selected;
    AtMostOne(all, second);
  }

  lemma AtMostOne<T(!new)>(rows: seq<Row<T>>, only: Row<T>)
    requires Ascending(rows) && forall row :: row in rows ==> row == only
    ensures |rows| <= 1
  {
    assert |rows| > 1 ==> rows[0] in rows && rows[1] in rows && Before(rows[0].key, rows[1].key);
  }

  /** Two rows listed one to a page, the first changed in between under its old stamp. */
  lemma MissedBetweenPages<T(!new)>(v: View<T>, after: View<T>, first: Row<T>, changed: Row<T>, second: Row<T>)
    requires v.table == [first, second] && after.table == [changed, second] && changed.key == first.key
    requires changed != first
    requires first.key.time < second.key.time && first.key.id != second.key.id && InRange(v.table)
    requires InRange(after.table)
    requires v.filter(first) && v.filter(second) && after.filter == v.filter
    ensures Keyed([v, after]) && Finished([v, after], None, 1, '|')
    ensures var copied := Synced(map[], [v, after], None, 1, '|');
            first.key.id in copied && copied[first.key.id] == first
    ensures changed in FinalTable([v, after], None, 1, '|')
  {
    hide InRange, Resume, PageAt, Kept, Synced, FinalTable;
    var views := [v, after];
    TwoRowsOnePage(v, first, second);
    LastRowOnePage(after, changed, second);
    NextResumes(v, None, 1, '|');
    assert views[1..] == [after];
    UnstampedIsMissed(map[], views, None, 1, '|', first, changed);
  }

  /** Ann's transactions on her cash account, all of them. */
  function AnnsFilter(): Row<TxnRow> -> bool {
    ListFilter(User("ann"), map["cash" := None], None, 0, true)
  }

  function AnnsRow(id: nat, category: string): Row<TxnRow> {
    Row(Key(id, id), TxnRow("ann", "cash", false, category))
  }

  /** Two transactions listed one to a page; between the pages the first one's category is merged into another. */
  function MergeBetweenPages(): seq<View<TxnRow>> {
    [View([AnnsRow(1, "food"), AnnsRow(2, "rent")], AnnsFilter()),
     View([AnnsRow(1, "meals"), AnnsRow(2, "rent")], AnnsFilter())]
  }

  /** The walk ends, and the client still has the category that is gone. */
  lemma MergeIsMissed()
    ensures var views := MergeBetweenPages();
            && Keyed(views) && Finished(views, None, ListSize(1), '|')
            && var copied := Synced(map[], views, None, ListSize(1), '|');
               var final := FinalTable(views, None, ListSize(1), '|');
               1 in copied && copied[1] == AnnsRow(1, "food") && AnnsRow(1, "meals") in final
  {
    AnnsRows();
    hide ListFilter, InRange, Synced, FinalTable, Finished, AnnsFilter;
    MissedBetweenPages(MergeBetweenPages()[0], MergeBetweenPages()[1], AnnsRow(1, "food"), AnnsRow(1, "meals"),
                       AnnsRow(2, "rent"));
  }

  lemma AnnsRows()
    ensures AnnsFilter()(AnnsRow(1, "food")) && AnnsFilter()(AnnsRow(2, "rent"))
    ensures forall i :: 0 <= i < 2 ==> InRange(MergeBetweenPages()[i].table)
  {
    ManyIds(31);
    hide Pow16;
  }

  lemma {:induction false} ManyIds(n: nat)
    ensures Pow16(n + 1) >= 16
  {
    if n > 0 {
      ManyIds(n - 1);
    }
  }
}
