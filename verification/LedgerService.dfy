/** The remaining ledger RPCs as they write: UpdateTransaction, DeleteTransaction and MergeCategories
    (server/internal/transaction/service.go) and TransferBetween (server/internal/account/service.go).
    A refused request leaves its database transaction rolled back, so nothing changed. */
module LedgerService {
  import opened LedgerTables
  import opened CategoryForest
  import opened Wrappers

  lemma AddNothing(accounts: map<Id, Account>, account: Id)
    ensures AddBalance(accounts, account, 0) == accounts
  {
    if account in accounts {
      assert accounts[account].(balance := accounts[account].balance + 0) == accounts[account];
    }
  }

  class LedgerStore {
    var accounts: map<Id, Account>
    var txns: map<Id, Txn>
    var transfers: seq<Transfer>
    var categories: map<Id, Category>
    var shares: seq<Share>

    function Value(): Tables
      reads this
    {
      Tables(accounts, txns, transfers, categories)
    }

    /** UPDATE accounts SET balance = balance + delta */
    method ChangeBalance(account: Id, delta: int)
      modifies this`accounts
      ensures accounts == AddBalance(old(accounts), account, delta)
    {
      accounts := AddBalance(accounts, account, delta);
    }

    /** The SET clauses, or None when the request is refused. */
    method UpdatedFields(was: Txn, r: UpdateRequest) returns (row: Option<Txn>)
      ensures row.None? <==> (r.amount.Some? && r.amount.value <= 0) || !r.typeOk || !r.dateOk
                             || r.category.Malformed? || (r.category.Given? && r.category.id !in categories)
      ensures row.Some? ==> row.value == RpcRow(was, r)
    {
      hide Converted;
      var fields := was;
      if r.amount.Some? {
        if r.amount.value <= 0 {
          return None;
        }
        fields := fields.(amount := r.amount.value, amountCny := Converted(was.currency, r.amount.value, was.rate));
      }
      if r.category.Malformed? || (r.category.Given? && r.category.id !in categories) {
        return None;
      }
      if r.category.Given? {
        fields := fields.(category := r.category.id);
      }
      if !r.typeOk {
        return None;
      }
      if r.income.Some? {
        fields := fields.(income := r.income.value);
      }
      if r.currency.Some? {
        fields := fields.(currency := r.currency.value);
      }
      return if r.dateOk then Some(fields) else None;
    }

    /** The balance change: nothing to recompute while amount and type stay. */
    method BalanceAdjust(was: Txn, row: Txn) returns (delta: int)
      ensures delta == (if row.amount == was.amount && row.income == was.income
                        then 0
                        else Signed(row.income, Converted(was.currency, row.amount, was.rate))
                             - Signed(was.income, was.amountCny))
    {
      hide Converted;
      var newAmountCny := if row.amount == was.amount && row.income == was.income then was.amountCny
                          else Converted(was.currency, row.amount, was.rate);
      var oldDelta := if was.income then was.amountCny else -was.amountCny;
      var newDelta := if row.income then newAmountCny else -newAmountCny;
      return newDelta - oldDelta;
    }

    method UpdateTransaction(id: Id, r: UpdateRequest, allowed: bool) returns (ok: bool)
      modifies this`accounts, this`txns
      ensures RpcUpdate(old(Value()), id, r, allowed) == if ok then Some(Value()) else None
      ensures !ok ==> Value() == old(Value())
    {
      hide Converted;
      if id !in txns || txns[id].deleted || !allowed {
        return false;
      }
      var was := txns[id];
      var row := UpdatedFields(was, r);
      if row.None? {
        return false;
      }
      var delta := BalanceAdjust(was, row.value);
      txns := txns[id := row.value];
      AddNothing(accounts, was.account);
      if delta != 0 {
        ChangeBalance(was.account, delta);
      }
      return true;
    }

    method DeleteTransaction(id: Id, allowed: bool) returns (ok: bool)
      modifies this`accounts, this`txns
      ensures RpcDelete(old(Value()), id, allowed) == if ok then Some(Value()) else None
      ensures !ok ==> Value() == old(Value())
    {
      if id !in txns || txns[id].deleted || !allowed {
        return false;
      }
      var was := txns[id];
      txns := txns[id := was.(deleted := true)];
      ChangeBalance(was.account, if was.income then -was.amountCny else was.amountCny);
      return true;
    }

    method TransferBetween(from: Id, to: Id, amount: int, allowed: bool) returns (ok: bool)
      modifies this`accounts, this`transfers
      ensures LedgerTables.TransferBetween(old(Value()), from, to, amount, allowed)
              == if ok then Some(Value()) else None
      ensures !ok ==> Value() == old(Value())
    {
      if amount <= 0 || from == to {
        return false;
      }
      if from !in accounts || !accounts[from].active || accounts[from].deleted {
        return false;
      }
      if to !in accounts || !accounts[to].active || accounts[to].deleted {
        return false;
      }
      if !allowed || accounts[from].balance < amount {
        return false;
      }
      ChangeBalance(from, -amount);
      ChangeBalance(to, amount);
      transfers := transfers + [Transfer(from, to, amount)];
      return true;
    }

    /** `mine` and `sameType`: the caller owns both categories, and both are for income or both for expenses. */
    method MergeCategories(user: Id, source: Ref, target: Ref, mine: bool, sameType: bool) returns (ok: bool)
      modifies this`txns, this`categories, this`shares
      ensures ok <==> source.Given? && target.Given? && source.id != target.id && mine && sameType
                      && LiveCategory(old(Value()), source.id) && LiveCategory(old(Value()), target.id)
      ensures ok ==> Value() == RpcMerged(old(Value()), user, source.id, target.id)
                     && shares == Without(Remapped(old(shares), source.id, target.id), source.id)
      ensures !ok ==> Value() == old(Value()) && shares == old(shares)
    {
      if !source.Given? || !target.Given? || source.id == target.id {
        return false;
      }
      if !LiveCategory(Value(), source.id) || !LiveCategory(Value(), target.id) || !mine || !sameType {
        return false;
      }
      ghost var merged := RpcMerged(Value(), user, source.id, target.id);
      txns := map id | id in txns ::
        if txns[id].category == source.id && txns[id].owner == user && !txns[id].deleted
        then txns[id].(category := target.id) else txns[id];
      categories := map c | c in categories ::
        if categories[c].parent == Some(source.id) && !categories[c].deleted
        then categories[c].(parent := Some(target.id)) else categories[c];
      shares := Remapped(shares, source.id, target.id);
      shares := Without(shares, source.id);
      categories := categories[source.id := categories[source.id].(deleted := true)];
      assert txns == merged.txns && categories == merged.categories;
      return true;
    }
  }
}
