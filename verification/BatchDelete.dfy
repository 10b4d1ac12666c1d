/** Deleting many transactions at once (server/internal/transaction/service.go, BatchDeleteTransactions)
    against deleting them one at a time (DeleteTransaction). */
module BatchDelete {
  import opened LedgerTables
  import opened Ledger
  import opened MapSum
  import opened Wrappers

  const MAX_BATCH: nat := 100

  /** UPDATE transactions SET deleted_at = NOW() WHERE id = ANY(ids) */
  function SoftDeleted(txns: map<Id, Txn>, ids: set<Id>): (after: map<Id, Txn>)
    ensures after.Keys == txns.Keys
  {
    map id | id in txns :: if id in ids then txns[id].(deleted := true) else txns[id]
  }

  /** The tables after a set of rows went: every balance drops by exactly what its sum of rows lost. */
  ghost function DeletedTogether(t: Tables, ids: set<Id>): Tables {
    var txns := SoftDeleted(t.txns, ids);
    t.(txns := txns,
       accounts := map a | a in t.accounts ::
         t.accounts[a].(balance := t.accounts[a].balance - Lost(t.txns, txns, a)))
  }

  ghost function Lost(before: map<Id, Txn>, after: map<Id, Txn>, account: Id): int {
    Sum(before, EffectOn(account)) - Sum(after, EffectOn(account))
  }

  function LiveAmong(t: Tables, ids: seq<Id>): set<Id> {
    set id | id in ids && LiveTxn(t, id)
  }

  /** DeleteTransaction for each id in turn; a missing or deleted id is an error and changes nothing. */
  function DeletedEach(t: Tables, ids: seq<Id>): Tables {
    if ids == [] then t
    else
      var before, id := DeletedEach(t, ids[..|ids| - 1]), ids[|ids| - 1];
      if LiveTxn(before, id) then Removed(before, id) else before
  }

  lemma NothingLost(t: Tables)
    ensures DeletedTogether(t, {}) == t
  {
    assert SoftDeleted(t.txns, {}) == t.txns;
    assert DeletedTogether(t, {}).accounts == t.accounts;
  }

  lemma LostNothing(txns: map<Id, Txn>, account: Id)
    ensures Lost(txns, SoftDeleted(txns, {}), account) == 0
  {
    assert SoftDeleted(txns, {}) == txns;
  }

  lemma OneMoreLost(t: Tables, ids: set<Id>, id: Id, account: Id)
    requires id in t.txns && id !in ids
    ensures Lost(t.txns, SoftDeleted(t.txns, ids + {id}), account)
            == Lost(t.txns, SoftDeleted(t.txns, ids), account)
               + Share(account, t.txns[id])
  {
    var before := SoftDeleted(t.txns, ids);
    assert SoftDeleted(t.txns, ids + {id}) == before[id := t.txns[id].(deleted := true)];
    SumUpdate(before, EffectOn(account), id, t.txns[id].(deleted := true));
  }

  lemma DeletedNext(t: Tables, ids: set<Id>, id: Id)
    requires LiveTxn(t, id) && id !in ids && t.txns[id].account in t.accounts
    ensures Removed(DeletedTogether(t, ids), id) == DeletedTogether(t, ids + {id})
  {
    hide Lost;
    var row := t.txns[id];
    var next, goal := Removed(DeletedTogether(t, ids), id), DeletedTogether(t, ids + {id});
    forall a | a in t.accounts
      ensures next.accounts[a] == goal.accounts[a]
    {
      OneMoreLost(t, ids, id, a);
    }
    assert next.accounts == goal.accounts;
    assert next.txns == goal.txns;
  }

  /** Deleting ids one at a time, in whatever order, with repeats and ids already gone,
      comes to deleting the distinct live ones together. */
  lemma {:induction false} EachIsTogether(t: Tables, ids: seq<Id>)
    requires WellFormed(t)
    ensures DeletedEach(t, ids) == DeletedTogether(t, LiveAmong(t, ids))
  {
    hide Removed, Lost;
    if ids == [] {
      assert LiveAmong(t, ids) == {};
      NothingLost(t);
    } else {
      var before, id := ids[..|ids| - 1], ids[|ids| - 1];
      EachIsTogether(t, before);
      var gone := LiveAmong(t, before);
      if LiveTxn(t, id) && id !in gone {
        DeletedNext(t, gone, id);
        assert LiveAmong(t, ids) == gone + {id};
      } else {
        assert LiveAmong(t, ids) == gone;
      }
    }
  }

  lemma OrderIrrelevant(t: Tables, ids: seq<Id>, others: seq<Id>)
    requires WellFormed(t) && forall id :: id in ids <==> id in others
    ensures DeletedEach(t, ids) == DeletedEach(t, others)
  {
    EachIsTogether(t, ids);
    EachIsTogether(t, others);
    assert LiveAmong(t, ids) == LiveAmong(t, others);
  }

  class TransactionStore {
    var accounts: map<Id, Account>
    var txns: map<Id, Txn>
    var transfers: seq<Transfer>
    var categories: map<Id, Category>

    function Value(): Tables
      reads this
    {
      Tables(accounts, txns, transfers, categories)
    }

    /** Deletes the live rows among the ids, then gives each account back its total in one UPDATE. */
    method BatchDeleteTransactions(ids: seq<Id>, allowed: bool) returns (deleted: Option<nat>)
      requires WellFormed(Value())
      modifies this`txns, this`accounts
      ensures deleted.None? <==> !(0 < |ids| <= 100) || (LiveAmong(old(Value()), ids) != {} && !allowed)
      ensures Value() == if deleted.Some? then DeletedEach(old(Value()), ids) else old(Value())
      ensures deleted.Some? ==> deleted.value == |LiveAmong(old(Value()), ids)|
    {
      hide WellFormed, Lost;
      ghost var start := Value();
      EachIsTogether(start, ids);
      if |ids| == 0 || |ids| > MAX_BATCH {
        return None;
      }
      var toDelete := LiveAmong(Value(), ids);
      if toDelete == {} {
        NothingLost(start);
        return Some(0);
      }
      if !allowed {
        return None;
      }
      hide DeletedEach, LiveAmong;
      var reverts := TotalReverts(toDelete);
      txns := SoftDeleted(txns, toDelete);
      ApplyReverts(reverts);
      assert accounts == DeletedTogether(start, toDelete).accounts;
      return Some(|toDelete|);
    }

    /** One UPDATE per account. */
    method ApplyReverts(reverts: map<Id, int>)
      requires reverts.Keys <= accounts.Keys
      modifies this`accounts
      ensures accounts == map a | a in old(accounts) ::
                if a in reverts then old(accounts)[a].(balance := old(accounts)[a].balance + reverts[a])
                else old(accounts)[a]
    {
      ghost var start := accounts;
      var left := reverts.Keys;
      while left != {}
        invariant left <= reverts.Keys && accounts.Keys == start.Keys
        invariant forall a :: a in start ==>
                    accounts[a] == (if a in reverts && a !in left
                                    then start[a].(balance := start[a].balance + reverts[a]) else start[a])
        decreases left
      {
        var a :| a in left;
        accounts := AddBalance(accounts, a, reverts[a]);
        left := left - {a};
      }
    }

    /** balanceReverts: per account, the sum of the amounts to give back. */
    method TotalReverts(toDelete: set<Id>) returns (reverts: map<Id, int>)
      requires WellFormed(Value())
      requires forall id :: id in toDelete ==> LiveTxn(Value(), id)
      ensures forall a :: a in accounts ==>
                (if a in reverts then reverts[a] else 0) == -Lost(txns, SoftDeleted(txns, toDelete), a)
      ensures reverts.Keys <= accounts.Keys
    {
      hide Lost;
      reverts := map[];
      var left := toDelete;
      ghost var done: set<Id> := {};
      forall a
        ensures Lost(txns, SoftDeleted(txns, {}), a) == 0
      {
        LostNothing(txns, a);
      }
      while left != {}
        invariant left + done == toDelete && left !! done
        invariant forall a :: a in accounts ==>
                    (if a in reverts then reverts[a] else 0) == -Lost(txns, SoftDeleted(txns, done), a)
        invariant reverts.Keys <= accounts.Keys
        decreases left
      {
        var id: Id :| id in left;
        var row := txns[id];
        forall a | a in accounts
          ensures Lost(txns, SoftDeleted(txns, done + {id}), a)
                  == Lost(txns, SoftDeleted(txns, done), a)
                     + (if row.account == a then Signed(row.income, row.amountCny) else 0)
        {
          OneMoreLost(Value(), done, id, a);
        }
        var sofar := if row.account in reverts then reverts[row.account] else 0;
        reverts := reverts[row.account := if row.income then sofar - row.amountCny else sofar + row.amountCny];
        left := left - {id};
        done := done + {id};
      }
      assert done == toDelete;
    }
  }
}
