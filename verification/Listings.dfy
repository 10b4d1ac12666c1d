/** What a pull and an incremental listing hand over, told by the rows' own columns
    (server/internal/sync/service.go and server/internal/transaction/service.go). */
module Listings {
  import opened PageToken
  import opened Paging
  import opened Incremental
  import opened Wrappers

  // ---------------------------------------------------------------- pulls

  /** Newer than the time asked for, and not pushed by the client that asks, which is "unknown" if it gives no id. */
  predicate News(row: Row<SyncRow>, since: int, clientId: string) {
    && row.key.time > since
    && (clientId != "" ==> row.body.clientId != clientId)
    && (clientId == "" ==> row.body.clientId != "unknown")
  }

  /** An operation of a member, and on a family account or transaction if it is about one. */
  predicate OfFamily(row: Row<SyncRow>, family: Family) {
    && row.body.user in family.members
    && (row.body.entityType == "transaction" ==> row.body.entity in family.txns)
    && (row.body.entityType == "account" ==> row.body.entity in family.accounts)
  }

  /** By time, then by id, and nothing twice. */
  ghost predicate InTimeOrder<T(!new)>(rows: seq<Row<T>>) {
    forall i, j :: 0 <= i < j < |rows| ==>
      rows[i].key.time < rows[j].key.time || (rows[i].key.time == rows[j].key.time && rows[i].key.id < rows[j].key.id)
  }

  lemma {:induction false} DeliveredMeets(views: seq<View<SyncRow>>, scopes: seq<Scope>, since: int, clientId: string,
                                          requested: int, row: Row<SyncRow>)
    returns (i: nat)
    requires Pulls(views, scopes, since, clientId) && Finished(views, None, PullSize(requested), ':')
    requires row in Walk(views, None, PullSize(requested), ':')
    ensures i < |scopes| && PullFilter(scopes[i], since, clientId)(row)
  {
    PullExact(views, scopes, since, clientId, requested);
    i :| 0 <= i < |scopes| && PullFilter(scopes[i], since, clientId)(row);
  }

  /** A finished personal pull delivers a row there throughout exactly when it is the caller's, newer than asked for and
      not from the asking client; no other row ever, and all in time order. */
  lemma {:induction false} PersonalPull(views: seq<View<SyncRow>>, user: string, since: int, clientId: string,
                                        requested: int)
    requires views != [] && Pulls(views, seq(|views|, _ => Personal(user)), since, clientId)
    requires Finished(views, None, PullSize(requested), ':')
    ensures var delivered := Walk(views, None, PullSize(requested), ':');
            && (forall row :: row in views[0].table ==>
                  (row in delivered <==> row.body.user == user && News(row, since, clientId)))
            && (forall row :: row in delivered ==> row.body.user == user && News(row, since, clientId))
            && InTimeOrder(delivered)
  {
    hide Finished, Walk, Pulls, PullFilter;
    var scopes := seq(|views|, _ => Personal(user));
    PullExact(views, scopes, since, clientId, requested);
    var delivered := Walk(views, None, PullSize(requested), ':');
    forall row | row in delivered
      ensures row.body.user == user && News(row, since, clientId)
    {
      var i := DeliveredMeets(views, scopes, since, clientId, requested, row);
      PersonalIs(user, since, clientId, row);
    }
    forall row | row in views[0].table && row.body.user == user && News(row, since, clientId)
      ensures row in delivered
    {
      PersonalIs(user, since, clientId, row);
      assert forall i :: 0 <= i < |scopes| ==> PullFilter(scopes[i], since, clientId)(row);
    }
  }

  lemma {:induction false} PersonalIs(user: string, since: int, clientId: string, row: Row<SyncRow>)
    ensures PullFilter(Personal(user), since, clientId)(row) <==> row.body.user == user && News(row, since, clientId)
  {}

  lemma {:induction false} FamilyIs(family: Family, since: int, clientId: string, row: Row<SyncRow>)
    ensures PullFilter(InFamily(family), since, clientId)(row) <==> OfFamily(row, family) && News(row, since, clientId)
  {}

  /** A finished family pull delivers only members' news, about the family's own accounts and transactions where they
      are
      about such, as the family was at some page; and every row there throughout that is news of the family as it was at
      every page. */
  lemma {:induction false} FamilyPull(views: seq<View<SyncRow>>, families: seq<Family>, since: int, clientId: string,
                                      requested: int)
    requires views != [] && |families| == |views|
    requires Pulls(views, seq(|families|, i requires 0 <= i < |families| => InFamily(families[i])), since, clientId)
    requires Finished(views, None, PullSize(requested), ':')
    ensures var delivered := Walk(views, None, PullSize(requested), ':');
            && (forall row :: row in delivered ==>
                  News(row, since, clientId) && exists i :: 0 <= i < |families| && OfFamily(row, families[i]))
            && (forall row :: row in views[0].table && News(row, since, clientId)
                              && (forall i :: 0 <= i < |families| ==> OfFamily(row, families[i])) ==>
                  row in delivered)
            && InTimeOrder(delivered)
  {
    hide Finished, Walk, Pulls, PullFilter, OfFamily, News;
    var scopes := seq(|families|, i requires 0 <= i < |families| => InFamily(families[i]));
    PullExact(views, scopes, since, clientId, requested);
    var delivered := Walk(views, None, PullSize(requested), ':');
    forall row | row in delivered
      ensures News(row, since, clientId) && exists i :: 0 <= i < |families| && OfFamily(row, families[i])
    {
      var i := DeliveredMeets(views, scopes, since, clientId, requested, row);
      FamilyIs(families[i], since, clientId, row);
    }
    forall row | row in views[0].table && News(row, since, clientId)
                 && forall i :: 0 <= i < |families| ==> OfFamily(row, families[i])
      ensures row in delivered
    {
      forall i | 0 <= i < |scopes|
        ensures PullFilter(scopes[i], since, clientId)(row)
      {
        FamilyIs(families[i], since, clientId, row);
      }
    }
  }

  /** A page that is not the last holds as many rows as asked for, up to 500, or 100 if nothing was asked for. */
  lemma {:induction false} PullPage(v: View<SyncRow>, cursor: Option<Key>, requested: int)
    requires UniqueIds(v.table)
    ensures var page := PageAt(v, cursor, PullSize(requested));
            var asked := if requested > 500 then 500 else if requested >= 1 then requested else 100;
            |page.rows| <= asked && (page.hasMore ==> |page.rows| == asked)
  {
    hide Selected;
  }

  /** Ann asks from her phone: of her two operations, one pushed by the laptop and one by the phone itself, she gets the
      laptop's. */
  function AnnsLog(): seq<Row<SyncRow>> {
    [Row(Key(1, 1), SyncRow("ann", "laptop", "budget", "b")), Row(Key(2, 2), SyncRow("ann", "phone", "budget", "b"))]
  }

  lemma {:induction false} OtherClientsOnly()
    ensures var views := [View(AnnsLog(), PullFilter(Personal("ann"), 0, "phone"))];
            && Pulls(views, seq(1, _ => Personal("ann")), 0, "phone") && Finished(views, None, PullSize(0), ':')
            && Walk(views, None, PullSize(0), ':') == [AnnsLog()[0]]
  {
    hide Walk, Finished, Pulls, Keyed;
    var log, filter := AnnsLog(), PullFilter(Personal("ann"), 0, "phone");
    AnnsKeys(log, filter);
    AnnsSelected(log, filter);
    LastPage(View(log, filter), PullSize(0));
    AnnsPull();
  }

  lemma {:induction false} AnnsPull()
    requires Keyed([View(AnnsLog(), PullFilter(Personal("ann"), 0, "phone"))])
    ensures Pulls([View(AnnsLog(), PullFilter(Personal("ann"), 0, "phone"))], seq(1, _ => Personal("ann")), 0, "phone")
  {
    hide Keyed, PullFilter;
  }

  lemma {:induction false} AnnsKeys(log: seq<Row<SyncRow>>, filter: Row<SyncRow> -> bool)
    requires log == AnnsLog()
    ensures UniqueIds(log) && Keyed([View(log, filter)])
  {
    AnnsIds();
    hide InRange;
  }

  lemma {:induction false} AnnsSelected(log: seq<Row<SyncRow>>, filter: Row<SyncRow> -> bool)
    requires log == AnnsLog() && filter == PullFilter(Personal("ann"), 0, "phone") && UniqueIds(log)
    ensures Selected(log, filter, None) == [log[0]]
  {
    var all := Selected(log, filter, None);
    SelectedRows(log, filter, None);
    hide Selected, UniqueIds;
    assert log[0] in log && log[1] in log;
    assert log[0] in all && log[1] !in all;
    AtMostOne(all, log[0]);
  }

  /** A result that fits a page is the whole walk. */
  lemma {:induction false} LastPage(v: View<SyncRow>, size: nat)
    requires |Selected(v.table, v.filter, None)| <= size && size > 0
    ensures Finished([v], None, size, ':') && Walk([v], None, size, ':') == Selected(v.table, v.filter, None)
  {
    hide Selected, Resume;
  }

  lemma {:induction false} AnnsIds()
    ensures InRange(AnnsLog())
  {
    ManyIds(31);
    hide Pow16;
  }

  // ---------------------------------------------------------------- incremental listings

  /** One's own transactions on accounts without a family, or any on the family's accounts; on the account asked for. */
  predicate Asked(row: Row<TxnRow>, owner: Owner, accounts: Accounts, account: Option<string>, since: int) {
    && row.key.time > since && row.body.account in accounts
    && (owner.User? ==> row.body.user == owner.user && accounts[row.body.account] == None)
    && (owner.FamilyOf? ==> accounts[row.body.account] == Some(owner.family))
    && (account.Some? ==> row.body.account == account.value)
  }

  lemma {:induction false} FilterIsAsked(row: Row<TxnRow>, owner: Owner, accounts: Accounts, account: Option<string>,
                                         since: int,
                      includeDeleted: bool)
    ensures ListFilter(owner, accounts, account, since, includeDeleted)(row) <==>
              Asked(row, owner, accounts, account, since) && (row.body.deleted ==> includeDeleted)
  {}

  /** A finished listing delivers only rows that some page saw and that were asked for, deleted ones only with
      tombstones, in time order; and every row that all pages saw alike and that was asked for. */
  lemma {:induction false} ListingExact(views: seq<View<TxnRow>>, owner: Owner, accounts: Accounts,
                                        account: Option<string>, since: int,
                     includeDeleted: bool, requested: int)
    requires Keyed(views) && Finished(views, None, ListSize(requested), '|')
    requires forall i :: 0 <= i < |views| ==>
               views[i].filter == ListFilter(owner, accounts, account, since, includeDeleted)
    ensures var delivered := Walk(views, None, ListSize(requested), '|');
            && (forall row :: row in delivered ==>
                  && Asked(row, owner, accounts, account, since) && (row.body.deleted ==> includeDeleted)
                  && exists i :: 0 <= i < |views| && row in views[i].table)
            && (forall row :: Asked(row, owner, accounts, account, since) && (row.body.deleted ==> includeDeleted)
                              && (forall i :: 0 <= i < |views| ==> row in views[i].table) ==>
                  row in delivered)
            && InTimeOrder(delivered)
  {
    WalkExact(views, None, ListSize(requested), '|');
    var delivered := Walk(views, None, ListSize(requested), '|');
    hide Finished, Walk, Keyed, ListFilter, Asked;
    forall row | row in delivered
      ensures Asked(row, owner, accounts, account, since) && (row.body.deleted ==> includeDeleted)
      ensures exists i :: 0 <= i < |views| && row in views[i].table
    {
      var i :| 0 <= i < |views| && Shows(views[i], row);
      FilterIsAsked(row, owner, accounts, account, since, includeDeleted);
      assert row in views[i].table;
    }
    forall row | Asked(row, owner, accounts, account, since) && (row.body.deleted ==> includeDeleted)
                 && forall i :: 0 <= i < |views| ==> row in views[i].table
      ensures row in delivered
    {
      FilterIsAsked(row, owner, accounts, account, since, includeDeleted);
      assert forall i :: 0 <= i < |views| ==> Shows(views[i], row);
    }
  }

  /** With tombstones and every change stamped anew, the client ends with the server's row for all that was asked
      for. */
  lemma {:induction false} ListingConverges(views: seq<View<TxnRow>>, owner: Owner, accounts: Accounts,
                                            account: Option<string>,
                         since: int, requested: int)
    requires Evolves(views, ListFilter(owner, accounts, account, since, true))
    requires Finished(views, None, ListSize(requested), '|')
    ensures var size := ListSize(requested);
            var final, copied := FinalTable(views, None, size, '|'), Synced(map[], views, None, size, '|');
            forall row :: row in final && Asked(row, owner, accounts, account, since) ==>
              row.key.id in copied && copied[row.key.id] == row
  {
    IncrementalConverges(views, owner, accounts, account, since, requested);
    hide Evolves, Finished, FinalTable, Synced;
  }

  /** 1 to 100 rows a page, 20 otherwise. */
  lemma {:induction false} ListPage(v: View<TxnRow>, cursor: Option<Key>, requested: int)
    requires UniqueIds(v.table)
    ensures var page := PageAt(v, cursor, ListSize(requested));
            var asked := if 1 <= requested <= 100 then requested else 20;
            |page.rows| <= asked && (page.hasMore ==> |page.rows| == asked)
  {
    hide Selected;
  }
}
