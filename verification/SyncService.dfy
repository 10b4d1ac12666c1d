/** The sync engine as it writes: each operation updates tables statement by statement and may fail
    half way; the push loop restores the savepoint (server/internal/sync/service.go). */
module SyncService {
  import opened LedgerTables
  import opened Ledger
  import opened LedgerRuns
  import opened Push
  import opened Wrappers

  lemma StillThere(accounts: map<Id, Account>, account: Id, delta: int)
    ensures AddBalance(accounts, account, delta).Keys == accounts.Keys
  {}

  class SyncStore {
    var accounts: map<Id, Account>
    var txns: map<Id, Txn>
    var transfers: seq<Transfer>
    var categories: map<Id, Category>
    var log: seq<Entry>

    function Value(): Tables
      reads this
    {
      Tables(accounts, txns, transfers, categories)
    }

    /** After a failure the tables may be half written; the caller rolls back. */
    twostate predicate Follows(want: Option<Tables>, ok: bool)
      reads this
    {
      && (ok <==> want.Some?)
      && (ok ==> Value() == want.value)
      && log == old(log)
    }

    /** UPDATE accounts SET balance = balance + delta */
    method ChangeBalance(account: Id, delta: int)
      modifies this`accounts
      ensures accounts == AddBalance(old(accounts), account, delta)
    {
      accounts := AddBalance(accounts, account, delta);
    }

    method ApplyTransactionCreate(user: Id, id: Id, p: TxnPayload, allowed: bool) returns (ok: bool)
      modifies this
      ensures Follows(SyncCreate(old(Value()), user, id, p, allowed), ok)
    {
      if !p.account.Given? || !p.category.Given? {
        return false;
      }
      if p.account.id !in accounts || accounts[p.account.id].deleted || !allowed {
        return false;
      }
      var currency := p.currency;
      if currency == "" {
        currency := "CNY";
      }
      var amountCny, rate := p.amountCny, p.rate;
      if currency == "CNY" {
        amountCny, rate := p.amount, 1.0;
      }
      var income := p.kind == "income";
      if !p.dateOk || p.amount <= 0 {
        return false;
      }
      if id in txns {
        return true;
      }
      if p.category.id !in categories {
        return false;
      }
      txns := txns[id := Txn(user, p.account.id, p.category.id, p.amount, currency, amountCny, rate, income, false)];
      var delta := amountCny;
      if !income {
        delta := -amountCny;
      }
      ChangeBalance(p.account.id, delta);
      return true;
    }

    /** The new field values, or None when the payload is refused. */
    method NewFields(was: Txn, p: TxnPayload, allowed: bool) returns (row: Option<Txn>)
      ensures row.None? <==>
                || p.account.Malformed? || p.category.Malformed? || !p.dateOk
                || (p.account.Given? && p.account.id != was.account
                    && (!LiveAccount(Value(), p.account.id) || !allowed))
                || (p.category.Given? && p.category.id !in categories)
      ensures row.Some? ==> row.value == UpdatedRow(was, p)
    {
      hide Converted;
      var fields := was;
      if p.account.Malformed? {
        return None;
      }
      if p.account.Given? && p.account.id != was.account {
        if p.account.id !in accounts || accounts[p.account.id].deleted || !allowed {
          return None;
        }
        fields := fields.(account := p.account.id);
      }
      if p.amount > 0 {
        fields := fields.(amount := p.amount, amountCny := Converted(was.currency, p.amount, was.rate));
      }
      if p.category.Malformed? || (p.category.Given? && p.category.id !in categories) {
        return None;
      }
      if p.category.Given? {
        fields := fields.(category := p.category.id);
      }
      if p.kind == "income" || p.kind == "expense" {
        fields := fields.(income := p.kind == "income");
      }
      if !p.dateOk {
        return None;
      }
      return Some(fields);
    }

    method ApplyTransactionUpdate(user: Id, id: Id, p: TxnPayload, allowed: bool) returns (ok: bool)
      modifies this
      ensures Follows(SyncUpdate(old(Value()), user, id, p, allowed), ok)
    {
      hide UpdatedRow, AddBalance, Signed;
      if id !in txns || txns[id].deleted || txns[id].owner != user {
        return false;
      }
      var was := txns[id];
      var fields := NewFields(was, p, allowed);
      if fields.None? {
        return false;
      }
      var row := fields.value;
      UpdatedRowAccount(was, p);
      txns := txns[id := row];
      ok := Rebook(was.account, Signed(was.income, was.amountCny), row.account, Signed(row.income, row.amountCny));
    }

    /** Moves a booked amount; a move may fail on overdraft with the old account already written. */
    method Rebook(from: Id, before: int, to: Id, after: int) returns (ok: bool)
      requires from != to ==> to in accounts
      modifies this`accounts
      ensures from == to ==> ok && accounts == AddBalance(old(accounts), from, after - before)
      ensures from != to ==>
                var reverted := AddBalance(old(accounts), from, -before);
                && reverted.Keys == old(accounts).Keys
                && (ok <==> !(after < 0 && reverted[to].balance + after < -reverted[to].overdraftLimit))
                && (ok ==> accounts == AddBalance(reverted, to, after))
    {
      hide AddBalance;
      StillThere(accounts, from, -before);
      if from != to {
        ChangeBalance(from, -before);
        if after < 0 && accounts[to].balance + after < -accounts[to].overdraftLimit {
          return false;
        }
        ChangeBalance(to, after);
      } else {
        ChangeBalance(from, after - before);
      }
      return true;
    }

    method ApplyTransactionDelete(user: Id, id: Id) returns (ok: bool)
      modifies this
      ensures Follows(SyncDelete(old(Value()), user, id), ok)
    {
      if id !in txns || txns[id].deleted {
        return true;
      }
      var row := txns[id];
      if row.owner != user {
        return false;
      }
      txns := txns[id := row.(deleted := true)];
      var revert := row.amountCny;
      if row.income {
        revert := -row.amountCny;
      }
      ChangeBalance(row.account, revert);
      return true;
    }

    method ApplyCategoryMerge(source: Ref, target: Ref, sourceAllowed: bool, targetAllowed: bool) returns (ok: bool)
      modifies this
      ensures Follows(CategoryMerge(old(Value()), source, target, sourceAllowed, targetAllowed), ok)
    {
      if !source.Given? || !target.Given? {
        return false;
      }
      if source.id == target.id || source.id !in categories || categories[source.id].deleted
         || categories[source.id].preset {
        return true;
      }
      if !sourceAllowed || target.id !in categories || categories[target.id].deleted || !targetAllowed {
        return false;
      }
      ghost var merged := Merged(Value(), source.id, target.id);
      txns := map id | id in txns ::
        if txns[id].category == source.id && !txns[id].deleted then txns[id].(category := target.id) else txns[id];
      categories := map c | c in categories ::
        if categories[c].parent == Some(source.id) && !categories[c].deleted
        then categories[c].(parent := Some(target.id)) else categories[c];
      categories := categories[source.id := categories[source.id].(deleted := true)];
      assert txns == merged.txns && categories == merged.categories;
      return true;
    }

    method ApplyAccount(op: SyncOp) returns (ok: bool)
      requires op.NewAccount? || op.EditAccount? || op.DropAccount?
      modifies this
      ensures Follows(Applied(old(Value()), op), ok)
    {
      match op {
        case NewAccount(id, nameOk, balance, creditCard) =>
          if !nameOk || id in accounts {
            return false;
          }
          accounts := accounts[id := Account(balance, 0, creditCard, true, false)];
        case EditAccount(id, active, card, typeOk, allowed) =>
          if id !in accounts || accounts[id].deleted || !allowed || !typeOk {
            return false;
          }
          var row := accounts[id];
          if card.Some? {
            row := row.(creditCard := card.value);
          }
          if active.Some? {
            row := row.(active := active.value);
          }
          accounts := accounts[id := row];
        case DropAccount(id, allowed) =>
          if id !in accounts || accounts[id].deleted || !allowed {
            return false;
          }
          accounts := accounts[id := accounts[id].(deleted := true)];
      }
      return true;
    }

    /** INSERT ... ON CONFLICT (id) DO UPDATE */
    method ApplyCategoryCreate(id: Id, nameOk: bool, typeOk: bool, parent: Ref) returns (ok: bool)
      modifies this
      ensures Follows(CategoryCreate(old(Value()), id, nameOk, typeOk, parent), ok)
    {
      if !nameOk {
        return false;
      }
      var parentId := None;
      if !parent.Absent? {
        if parent.Malformed? {
          return false;
        }
        parentId := Some(parent.id);
      }
      if !typeOk || (parentId.Some? && parentId.value != id && parentId.value !in categories) {
        return false;
      }
      if id in categories {
        categories := categories[id := categories[id].(parent := parentId)];
      } else {
        categories := categories[id := Category(parentId, false, false)];
      }
      return true;
    }

    method ApplyCategoryDelete(id: Id, allowed: bool) returns (ok: bool)
      modifies this
      ensures Follows(CategoryDelete(old(Value()), id, allowed), ok)
    {
      if id !in categories || categories[id].deleted || categories[id].preset {
        return true;
      }
      if !allowed {
        return false;
      }
      categories := map c | c in categories ::
        if c == id || categories[c].parent == Some(id) then categories[c].(deleted := true) else categories[c];
      return true;
    }

    method ApplyCategory(op: SyncOp) returns (ok: bool)
      requires op.NewCategory? || op.EditCategory? || op.DropCategory?
      modifies this
      ensures Follows(Applied(old(Value()), op), ok)
    {
      hide CategoryCreate, CategoryDelete;
      match op {
        case NewCategory(id, nameOk, typeOk, parent) => ok := ApplyCategoryCreate(id, nameOk, typeOk, parent);
        case EditCategory(id, allowed) =>
          ok := id in categories && !categories[id].deleted && (categories[id].preset || allowed);
        case DropCategory(id, allowed) => ok := ApplyCategoryDelete(id, allowed);
      }
    }

    method ApplyOperation(op: SyncOp) returns (ok: bool)
      modifies this
      ensures Follows(Applied(old(Value()), op), ok)
    {
      hide SyncCreate, SyncUpdate, SyncDelete, CategoryMerge, CategoryCreate, CategoryUpdate, CategoryDelete;
      hide AccountCreate, AccountUpdate, AccountDelete;
      match op {
        case Create(user, id, p, allowed) => ok := ApplyTransactionCreate(user, id, p, allowed);
        case Update(user, id, p, allowed) => ok := ApplyTransactionUpdate(user, id, p, allowed);
        case Delete(user, id) => ok := ApplyTransactionDelete(user, id);
        case NewAccount(_, _, _, _) => ok := ApplyAccount(op);
        case EditAccount(_, _, _, _, _) => ok := ApplyAccount(op);
        case DropAccount(_, _) => ok := ApplyAccount(op);
        case NewCategory(_, _, _, _) => ok := ApplyCategory(op);
        case EditCategory(_, _) => ok := ApplyCategory(op);
        case DropCategory(_, _) => ok := ApplyCategory(op);
        case Merge(source, target, s, g) => ok := ApplyCategoryMerge(source, target, s, g);
        case Elsewhere(fine) => ok := fine;
      }
    }

    /** One turn of the push loop, savepoint included. */
    method PushOperation(p: Pushed) returns (accepted: bool)
      modifies this
      ensures (Server(Value(), log), accepted) == PushOne(Server(old(Value()), old(log)), p)
    {
      hide Applied;
      if !p.entityOk {
        return false;
      }
      var savepoint, savedLog := Value(), log;
      if Recorded(log, p.clientId) {
        return true;
      }
      var failed := !p.recordOk;
      if !failed {
        log := log + [Entry(p.clientId, p.op)];
        var ok := ApplyOperation(p.op);
        failed := !ok;
      }
      if failed {
        accounts, txns := savepoint.accounts, savepoint.txns;
        transfers, categories := savepoint.transfers, savepoint.categories;
        log := savedLog;
        return false;
      }
      return true;
    }

    /** The whole push: what it leaves is the specification's, and every operation is accounted for. */
    method PushOperations(ops: seq<Pushed>) returns (accepted: nat, failed: seq<string>)
      modifies this
      ensures Server(Value(), log) == PushAll(Server(old(Value()), old(log)), ops)
      ensures accepted == Accepted(Server(old(Value()), old(log)), ops)
      ensures failed == Failed(Server(old(Value()), old(log)), ops)
      ensures accepted + |failed| == |ops|
    {
      hide PushOne;
      ghost var start := Server(Value(), log);
      accepted, failed := 0, [];
      for i := 0 to |ops|
        invariant Server(Value(), log) == PushAll(start, ops[..i])
        invariant accepted == Accepted(start, ops[..i]) && failed == Failed(start, ops[..i])
      {
        assert ops[..i + 1][..i] == ops[..i];
        var ok := PushOperation(ops[i]);
        if ok {
          accepted := accepted + 1;
        } else {
          failed := failed + [ops[i].name];
        }
      }
      assert ops[..|ops|] == ops;
      Accounted(start, ops);
    }
  }
}
