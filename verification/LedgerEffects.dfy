/** What every operation on the ledger does, field by field: when it is accepted, the row it leaves, the balances it
    moves, and that nothing else changes (server/internal/sync/service.go, server/internal/transaction and
    server/internal/account/service.go). */
module LedgerEffects {
  import opened LedgerTables
  import opened Ledger
  import opened BatchDelete
  import opened LedgerRuns
  import opened MapSum
  import opened CategoryForest
  import opened Wrappers

  // ---------------------------------------------------------------- vocabulary

  /** What a row counts for in its account: income adds, expense subtracts, a deleted row is nothing. */
  function Weight(row: Txn): int {
    if row.deleted then 0 else if row.income then row.amountCny else -row.amountCny
  }

  function WeightIn(row: Txn, account: Id): int {
    if row.account == account then Weight(row) else 0
  }

  /** What each balance gains when one row takes the place of another. */
  function Change(was: Txn, row: Txn): Id -> int {
    (a: Id) => WeightIn(row, a) - WeightIn(was, a)
  }

  /** The sums behind the opening balances add up just that. */
  lemma EffectIsWeight(row: Txn, account: Id)
    ensures EffectOn(account)(row) == WeightIn(row, account)
  {}

  /** n is x without its fraction. */
  predicate CutTowardZero(x: real, n: int) {
    if x >= 0.0 then n as real <= x < n as real + 1.0 else n as real - 1.0 < x <= n as real
  }

  /** The CNY value of an amount: itself in CNY, or a blank currency; else at the rate, without fractions of a cent. */
  predicate InCny(currency: string, amount: int, rate: real, cny: int) {
    if currency == "CNY" || currency == "" then cny == amount else CutTowardZero(amount as real * rate, cny)
  }

  lemma ConvertedInCny(currency: string, amount: int, rate: real, cny: int)
    ensures InCny(currency, amount, rate, cny) <==> cny == Converted(currency, amount, rate)
  {
    TruncateCuts(amount as real * rate, cny);
    hide Truncate, CutTowardZero;
  }

  lemma TruncateCuts(x: real, n: int)
    ensures CutTowardZero(x, n) <==> n == Truncate(x)
  {}

  /** Accounts keep everything but the balance, which moves by what `change` says. */
  ghost predicate Moved(before: map<Id, Account>, after: map<Id, Account>, change: Id -> int) {
    && after.Keys == before.Keys
    && forall a :: a in before ==> after[a] == before[a].(balance := before[a].balance + change(a))
  }

  /** One transaction row written, balances moved, nothing else. */
  ghost predicate Wrote(t: Tables, after: Tables, id: Id, row: Txn, change: Id -> int) {
    after == t.(txns := t.txns[id := row], accounts := after.accounts) && Moved(t.accounts, after.accounts, change)
  }

  // ---------------------------------------------------------------- pushed transactions

  lemma CreateEffect(t: Tables, user: Id, id: Id, p: TxnPayload, allowed: bool)
    ensures var after := Applied(t, Create(user, id, p, allowed));
            && (after.Some? <==>
                  && p.account.Given? && p.account.id in t.accounts && !t.accounts[p.account.id].deleted && allowed
                  && p.category.Given? && p.dateOk && p.amount > 0
                  && (id in t.txns || p.category.id in t.categories))
            && (after.Some? && id in t.txns ==> after.value == t)
            && (after.Some? && id !in t.txns ==>
                  id in after.value.txns
                  && var row := after.value.txns[id];
                     var cny := p.currency == "CNY" || p.currency == "";
                     && row.owner == user && row.account == p.account.id && row.category == p.category.id
                     && row.amount == p.amount && row.currency == (if cny then "CNY" else p.currency)
                     && row.amountCny == (if cny then p.amount else p.amountCny)
                     && row.rate == (if cny then 1.0 else p.rate)
                     && row.income == (p.kind == "income") && !row.deleted
                     && Wrote(t, after.value, id, row, a => WeightIn(row, a)))
  {}

  /** The row a pushed update leaves, from the payload's own fields. */
  ghost predicate UpdatedBy(was: Txn, row: Txn, p: TxnPayload) {
    && row.owner == was.owner && row.currency == was.currency && row.rate == was.rate && row.deleted == was.deleted
    && row.account == (if p.account.Given? then p.account.id else was.account)
    && row.category == (if p.category.Given? then p.category.id else was.category)
    && row.amount == (if p.amount > 0 then p.amount else was.amount)
    && (if p.amount > 0 then InCny(was.currency, p.amount, was.rate, row.amountCny) else row.amountCny == was.amountCny)
    && (row.income <==> p.kind == "income" || (was.income && p.kind != "expense"))
  }

  lemma UpdatedRowBy(was: Txn, p: TxnPayload)
    ensures UpdatedBy(was, UpdatedRow(was, p), p)
  {
    ConvertedInCny(was.currency, p.amount, was.rate, Converted(was.currency, p.amount, was.rate));
    hide Converted, InCny;
  }

  /** Accepted for the owner's live row if what the payload names is there, and a move leaves the new account within
      its overdraft; then the row is updated and both balances follow it. */
  lemma UpdateEffect(t: Tables, user: Id, id: Id, p: TxnPayload, allowed: bool)
    ensures var after := Applied(t, Update(user, id, p, allowed));
            && (after.Some? ==>
                  id in t.txns && !t.txns[id].deleted && t.txns[id].owner == user && id in after.value.txns)
            && (id in t.txns && !t.txns[id].deleted && t.txns[id].owner == user ==>
                  exists row ::
                    && UpdatedBy(t.txns[id], row, p)
                    && (after.Some? <==>
                          && !p.account.Malformed? && !p.category.Malformed? && p.dateOk
                          && (p.category.Given? ==> p.category.id in t.categories)
                          && (row.account != t.txns[id].account ==>
                                && row.account in t.accounts && !t.accounts[row.account].deleted && allowed
                                && (Weight(row) >= 0
                                    || t.accounts[row.account].balance + Weight(row)
                                       >= -t.accounts[row.account].overdraftLimit)))
                    && (after.Some? ==>
                          Wrote(t, after.value, id, row, Change(t.txns[id], row))))
  {
    hide UpdatedBy, Wrote, SyncUpdate, UpdatedRow, Weight, WeightIn;
    if id in t.txns && !t.txns[id].deleted && t.txns[id].owner == user {
      var was := t.txns[id];
      var row := UpdatedRow(was, p);
      UpdatedRowBy(was, p);
      UpdateAccepted(t, user, id, p, allowed);
      if Applied(t, Update(user, id, p, allowed)).Some? {
        UpdateWritten(t, user, id, p, allowed);
      }
      assert UpdatedBy(was, row, p);
    } else {
      UpdateRefused(t, user, id, p, allowed);
    }
  }

  lemma UpdateRefused(t: Tables, user: Id, id: Id, p: TxnPayload, allowed: bool)
    requires !(id in t.txns && !t.txns[id].deleted && t.txns[id].owner == user)
    ensures SyncUpdate(t, user, id, p, allowed).None?
  {}

  lemma UpdateAccepted(t: Tables, user: Id, id: Id, p: TxnPayload, allowed: bool)
    requires id in t.txns && !t.txns[id].deleted && t.txns[id].owner == user
    ensures var was := t.txns[id];
            var row := UpdatedRow(was, p);
            SyncUpdate(t, user, id, p, allowed).Some? <==>
              && !p.account.Malformed? && !p.category.Malformed? && p.dateOk
              && (p.category.Given? ==> p.category.id in t.categories)
              && (row.account != was.account ==>
                    && row.account in t.accounts && !t.accounts[row.account].deleted && allowed
                    && (Weight(row) >= 0
                        || t.accounts[row.account].balance + Weight(row) >= -t.accounts[row.account].overdraftLimit))
  {
    UpdatedRowAccount(t.txns[id], p);
    hide UpdatedRow;
  }

  lemma UpdateWritten(t: Tables, user: Id, id: Id, p: TxnPayload, allowed: bool)
    requires SyncUpdate(t, user, id, p, allowed).Some? && id in t.txns
    ensures var row := UpdatedRow(t.txns[id], p);
            var after := SyncUpdate(t, user, id, p, allowed).value;
            Wrote(t, after, id, row, Change(t.txns[id], row)) && id in after.txns
  {
    hide SyncUpdate, UpdatedRow, AddBalance, Moved, Signed, Converted;
    SyncUpdateWrites(t, user, id, p, allowed);
    BalancesFollow(t.accounts, t.txns[id], UpdatedRow(t.txns[id], p));
  }

  lemma OneBalance(accounts: map<Id, Account>, account: Id, delta: int)
    ensures Moved(accounts, AddBalance(accounts, account, delta), a => if a == account then delta else 0)
  {}

  lemma MovedTwice(x: map<Id, Account>, y: map<Id, Account>, z: map<Id, Account>, f: Id -> int, g: Id -> int,
                   h: Id -> int)
    requires Moved(x, y, f) && Moved(y, z, g) && forall a :: h(a) == f(a) + g(a)
    ensures Moved(x, z, h)
  {}

  /** A row's balance taken back and its successor's booked. */
  lemma BalancesFollow(accounts: map<Id, Account>, was: Txn, row: Txn)
    requires !was.deleted && !row.deleted
    ensures var before, now := Signed(was.income, was.amountCny), Signed(row.income, row.amountCny);
            Moved(accounts,
                  if row.account == was.account then AddBalance(accounts, was.account, now - before)
                  else AddBalance(AddBalance(accounts, was.account, -before), row.account, now),
                  Change(was, row))
  {
    hide AddBalance, Signed, Weight, Moved, WeightIn;
    var before, now := Signed(was.income, was.amountCny), Signed(row.income, row.amountCny);
    if row.account == was.account {
      OneBalance(accounts, was.account, now - before);
      SameChange(was, row, a => if a == was.account then now - before else 0);
      MovedAlike(accounts, AddBalance(accounts, was.account, now - before),
                 a => if a == was.account then now - before else 0, Change(was, row));
    } else {
      var reverted := AddBalance(accounts, was.account, -before);
      OneBalance(accounts, was.account, -before);
      OneBalance(reverted, row.account, now);
      SameChange(was, row, a => (if a == was.account then -before else 0) + (if a == row.account then now else 0));
      MovedTwice(accounts, reverted, AddBalance(reverted, row.account, now),
                 a => if a == was.account then -before else 0, a => if a == row.account then now else 0,
                 Change(was, row));
    }
  }

  lemma MovedAlike(x: map<Id, Account>, y: map<Id, Account>, f: Id -> int, g: Id -> int)
    requires Moved(x, y, f) && forall a :: f(a) == g(a)
    ensures Moved(x, y, g)
  {}

  lemma SameChange(was: Txn, row: Txn, f: Id -> int)
    requires !was.deleted && !row.deleted
    requires forall a :: f(a) == (if a == was.account then -Signed(was.income, was.amountCny) else 0)
                                 + (if a == row.account then Signed(row.income, row.amountCny) else 0)
    ensures forall a :: Change(was, row)(a) == f(a)
  {}

  lemma DeleteEffect(t: Tables, user: Id, id: Id)
    ensures var after, live := Applied(t, Delete(user, id)), id in t.txns && !t.txns[id].deleted;
            && (after.Some? <==> !live || t.txns[id].owner == user)
            && (!live ==> after == Some(t))
            && (after.Some? && live ==>
                  Wrote(t, after.value, id, t.txns[id].(deleted := true),
                        Change(t.txns[id], t.txns[id].(deleted := true))))
  {}

  // ---------------------------------------------------------------- pushed accounts and categories

  /** A new account holds what it was given; edits and deletion leave every balance alone. */
  lemma AccountEffects(t: Tables, id: Id, nameOk: bool, balance: int, creditCard: bool)
    ensures var after := Applied(t, NewAccount(id, nameOk, balance, creditCard));
            && (after.Some? <==> nameOk && id !in t.accounts)
            && (after.Some? ==>
                  && after.value == t.(accounts := after.value.accounts)
                  && after.value.accounts == t.accounts[id := Account(balance, 0, creditCard, true, false)])
  {}

  lemma AccountEdits(t: Tables, op: SyncOp)
    requires op.EditAccount? || op.DropAccount?
    ensures var after, live := Applied(t, op), op.id in t.accounts && !t.accounts[op.id].deleted;
            && (after.Some? <==> live && op.allowed && (op.EditAccount? ==> op.typeOk))
            && (after.Some? ==>
                  && after.value == t.(accounts := after.value.accounts) && after.value.accounts.Keys == t.accounts.Keys
                  && (forall a :: a in t.accounts && a != op.id ==> after.value.accounts[a] == t.accounts[a])
                  && var was, now := t.accounts[op.id], after.value.accounts[op.id];
                     && now.balance == was.balance && now.overdraftLimit == was.overdraftLimit
                     && (now.deleted <==> op.DropAccount?)
                     && now.active == (if op.EditAccount? && op.active.Some? then op.active.value else was.active)
                     && now.creditCard == (if op.EditAccount? && op.card.Some? then op.card.value else was.creditCard))
  {}

  /** Only categories change; what is deleted stays deleted, and nothing else is revived. */
  ghost predicate OnlyCategories(t: Tables, after: Tables) {
    after == t.(categories := after.categories)
  }

  lemma CategoryCreateEffect(t: Tables, id: Id, nameOk: bool, typeOk: bool, parent: Ref)
    ensures var after := Applied(t, NewCategory(id, nameOk, typeOk, parent));
            && (after.Some? <==>
                  nameOk && typeOk && !parent.Malformed?
                  && (parent.Given? && parent.id != id ==> parent.id in t.categories))
            && (after.Some? ==>
                  && OnlyCategories(t, after.value) && after.value.categories.Keys == t.categories.Keys + {id}
                  && (forall c :: c in t.categories && c != id ==> after.value.categories[c] == t.categories[c])
                  && var now := after.value.categories[id];
                     && now.parent == (if parent.Given? then Some(parent.id) else None)
                     && now.deleted == (id in t.categories && t.categories[id].deleted)
                     && now.preset == (id in t.categories && t.categories[id].preset))
  {}

  /** Deleting a category takes its direct children along, and no one else; presets and dead ones are left alone. */
  lemma CategoryDeleteEffect(t: Tables, id: Id, allowed: bool)
    ensures var after := Applied(t, DropCategory(id, allowed));
            var own := id in t.categories && !t.categories[id].deleted && !t.categories[id].preset;
            && (after.Some? <==> !own || allowed)
            && (after.Some? ==> OnlyCategories(t, after.value) && after.value.categories.Keys == t.categories.Keys)
            && (after.Some? ==> forall c :: c in t.categories ==>
                  after.value.categories[c]
                  == t.categories[c].(deleted := t.categories[c].deleted
                                                 || (own && (c == id || t.categories[c].parent == Some(id)))))
  {}

  lemma CategoryEditEffect(t: Tables, id: Id, allowed: bool)
    ensures var after := Applied(t, EditCategory(id, allowed));
            && (after.Some? <==>
                  id in t.categories && !t.categories[id].deleted && (t.categories[id].preset || allowed))
            && (after.Some? ==> after.value == t)
  {}

  /** Any other accepted operation leaves these tables alone. */
  lemma ElsewhereEffect(t: Tables, fine: bool)
    ensures var after := Applied(t, Elsewhere(fine)); (after.Some? <==> fine) && (after.Some? ==> after.value == t)
  {}

  /** What a merge does to the rows: the chosen live transactions of the source and its live children go to the target,
      the source is deleted. */
  ghost predicate MergedInto(t: Tables, after: Tables, source: Id, target: Id, chosen: Txn -> bool) {
    && after.accounts == t.accounts && after.transfers == t.transfers
    && after.txns.Keys == t.txns.Keys && after.categories.Keys == t.categories.Keys
    && (forall id :: id in t.txns ==>
          var was := t.txns[id];
          after.txns[id] ==
            if was.category == source && !was.deleted && chosen(was) then was.(category := target) else was)
    && (forall c :: c in t.categories ==>
          var was := t.categories[c];
          && after.categories[c].parent ==
             (if was.parent == Some(source) && !was.deleted then Some(target) else was.parent)
          && after.categories[c].deleted == (was.deleted || c == source)
          && after.categories[c].preset == was.preset)
  }

  /** A pushed merge: nothing to do for the category itself, a dead or a preset source; otherwise accepted for a live
      target when both are accessible. */
  lemma MergeEffect(t: Tables, source: Ref, target: Ref, sourceAllowed: bool, targetAllowed: bool)
    ensures var after := Applied(t, Merge(source, target, sourceAllowed, targetAllowed));
            var given := source.Given? && target.Given?;
            var idle :=
              && given
              && (source.id == target.id || source.id !in t.categories || t.categories[source.id].deleted
                  || t.categories[source.id].preset);
            && (after.Some? <==>
                  given && (idle || (sourceAllowed && targetAllowed && target.id in t.categories
                                     && !t.categories[target.id].deleted)))
            && (after.Some? && idle ==> after.value == t)
            && (after.Some? && !idle ==> MergedInto(t, after.value, source.id, target.id, (row: Txn) => true))
  {}

  /** The gRPC merge takes the caller's transactions only. */
  lemma RpcMergeEffect(t: Tables, user: Id, source: Id, target: Id)
    requires source in t.categories
    ensures MergedInto(t, RpcMerged(t, user, source, target), source, target, (row: Txn) => row.owner == user)
  {}

  // ---------------------------------------------------------------- requests

  /** The create pipeline: valid, permitted, on a live account, with a category to be found, and within the balance
      unless it is income, a batch or a credit card. */
  lemma PipelineEffect(t: Tables, user: Id, id: Id, r: CreateRequest, batch: bool, preset: Option<Id>, allowed: bool)
    ensures var after := PipelineCreate(t, user, id, r, batch, preset, allowed);
            var cny := r.currency == "CNY" || r.currency == "";
            var known := r.category.Given? && r.category.id in t.categories && !t.categories[r.category.id].deleted;
            var amountCny := if cny then r.amount else r.amountCny;
            && (after.Some? <==>
                  && r.account.Given? && r.category.Given? && 0 < r.amount <= 99_999_999_999 && r.noteOk && r.dateOk
                  && (cny || r.amountCny > 0) && allowed
                  && r.account.id in t.accounts && !t.accounts[r.account.id].deleted && id !in t.txns
                  && (known || batch)
                  && (r.income || batch || t.accounts[r.account.id].creditCard
                      || t.accounts[r.account.id].balance >= amountCny))
            && (after.Some? ==>
                  id in after.value.txns
                  && var row := after.value.txns[id];
                     && row.owner == user && row.account == r.account.id
                     && row.category == (if known || preset.None? then r.category.id else preset.value)
                     && row.amount == r.amount && row.currency == (if cny then "CNY" else r.currency)
                     && row.amountCny == amountCny && row.rate == (if cny then 1.0 else r.rate)
                     && row.income == r.income && !row.deleted
                     && after.value.txns == t.txns[id := row] && after.value.transfers == t.transfers
                     && after.value.categories
                        == (if row.category in t.categories then t.categories
                            else t.categories[row.category := Category(None, false, false)])
                     && Moved(t.accounts, after.value.accounts, a => WeightIn(row, a)))
  {}

  /** The row a request leaves, from its own fields. */
  ghost predicate EditedBy(was: Txn, row: Txn, r: UpdateRequest) {
    && row.owner == was.owner && row.account == was.account && row.rate == was.rate && row.deleted == was.deleted
    && row.category == (if r.category.Given? then r.category.id else was.category)
    && row.amount == (if r.amount.Some? then r.amount.value else was.amount)
    && (if r.amount.Some? then InCny(was.currency, r.amount.value, was.rate, row.amountCny)
        else row.amountCny == was.amountCny)
    && row.income == (if r.income.Some? then r.income.value else was.income)
    && row.currency == (if r.currency.Some? then r.currency.value else was.currency)
  }

  /** An update is accepted for a live row and sound fields. The balance stays while amount and type do; otherwise it
      moves by the new signed amount, in CNY at the row's old currency and rate, less the old one. */
  lemma EditEffect(t: Tables, id: Id, r: UpdateRequest, allowed: bool)
    ensures var after := RpcUpdate(t, id, r, allowed);
            && (after.Some? <==>
                  && id in t.txns && !t.txns[id].deleted && allowed && r.typeOk && r.dateOk
                  && (r.amount.Some? ==> r.amount.value > 0)
                  && !r.category.Malformed? && (r.category.Given? ==> r.category.id in t.categories))
            && (after.Some? ==>
                  id in after.value.txns
                  && var was, row := t.txns[id], after.value.txns[id];
                     && EditedBy(was, row, r)
                     && exists booked: int ::
                          && (if row.amount == was.amount && row.income == was.income then booked == was.amountCny
                              else InCny(was.currency, row.amount, was.rate, booked))
                          && Wrote(t, after.value, id, row, Change(was, row.(amountCny := booked))))
  {
    if RpcUpdate(t, id, r, allowed).Some? {
      EditWritten(t, id, r, allowed);
    }
  }

  lemma EditWritten(t: Tables, id: Id, r: UpdateRequest, allowed: bool)
    requires RpcUpdate(t, id, r, allowed).Some?
    ensures LiveTxn(t, id)
    ensures var after, was := RpcUpdate(t, id, r, allowed).value, t.txns[id];
            var row, booked := RpcRow(was, r), BookedCny(was, r);
            && EditedBy(was, row, r)
            && (if row.amount == was.amount && row.income == was.income then booked == was.amountCny
                else InCny(was.currency, row.amount, was.rate, booked))
            && Wrote(t, after, id, row, Change(was, row.(amountCny := booked)))
            && id in after.txns && after.txns[id] == row
  {
    var was := t.txns[id];
    var row, booked := RpcRow(was, r), BookedCny(was, r);
    if r.amount.Some? {
      ConvertedInCny(was.currency, r.amount.value, was.rate, row.amountCny);
    }
    ConvertedInCny(was.currency, row.amount, was.rate, booked);
    BalancesFollow(t.accounts, was, row.(amountCny := booked));
    hide Converted, InCny, AddBalance, Moved;
  }

  /** So a request that names an amount and changes amount or type moves the balance by exactly the change of the
      signed amount. */
  lemma NewAmountMoves(t: Tables, id: Id, r: UpdateRequest, allowed: bool)
    requires RpcUpdate(t, id, r, allowed).Some? && r.amount.Some?
    ensures LiveTxn(t, id) && id in RpcUpdate(t, id, r, allowed).value.txns
    ensures var after := RpcUpdate(t, id, r, allowed).value;
            r.amount.value != t.txns[id].amount || after.txns[id].income != t.txns[id].income ==>
              Wrote(t, after, id, after.txns[id], Change(t.txns[id], after.txns[id]))
  {
    EditWritten(t, id, r, allowed);
    var was := t.txns[id];
    hide RpcUpdate, Converted, Wrote;
    if r.amount.value != was.amount || RpcRow(was, r).income != was.income {
      assert RpcRow(was, r).(amountCny := BookedCny(was, r)) == RpcRow(was, r);
    }
  }

  lemma RemoveEffect(t: Tables, id: Id, allowed: bool)
    ensures var after := RpcDelete(t, id, allowed);
            && (after.Some? <==> id in t.txns && !t.txns[id].deleted && allowed)
            && (after.Some? ==>
                  var gone := t.txns[id].(deleted := true);
                  Wrote(t, after.value, id, gone, Change(t.txns[id], gone)))
  {}

  /** A batch delete: exactly the named rows are deleted, and each balance gives up what its sum of rows loses. */
  lemma BatchEffect(t: Tables, ids: seq<Id>)
    requires WellFormed(t)
    ensures var after := DeletedEach(t, ids);
            && after == t.(txns := after.txns, accounts := after.accounts)
            && after.txns.Keys == t.txns.Keys && after.accounts.Keys == t.accounts.Keys
            && (forall id :: id in t.txns ==>
                  after.txns[id] == t.txns[id].(deleted := t.txns[id].deleted || id in ids))
            && forall a :: a in t.accounts ==>
                 after.accounts[a] == t.accounts[a].(balance := t.accounts[a].balance
                                                                - Sum(t.txns,
                                                                      EffectOn(a)) + Sum(after.txns, EffectOn(a)))
  {
    EachIsTogether(t, ids);
  }

  /** A transfer: positive, between two different live, active accounts, within the sender's balance. */
  lemma TransferEffect(t: Tables, from: Id, to: Id, amount: int, allowed: bool)
    ensures var after := TransferBetween(t, from, to, amount, allowed);
            && (after.Some? <==>
                  && amount > 0 && from != to && allowed
                  && from in t.accounts && !t.accounts[from].deleted && t.accounts[from].active
                  && to in t.accounts && !t.accounts[to].deleted && t.accounts[to].active
                  && t.accounts[from].balance >= amount)
            && (after.Some? ==>
                  && after.value == t.(accounts := after.value.accounts, transfers := after.value.transfers)
                  && after.value.transfers == t.transfers + [Transfer(from, to, amount)]
                  && Moved(t.accounts, after.value.accounts,
                           a => (if a == to then amount else 0) - (if a == from then amount else 0)))
  {}

  // ---------------------------------------------------------------- runs

  function OrSame(after: Option<Tables>, t: Tables): Tables {
    if after.Some? then after.value else t
  }

  /** A run takes each accepted operation's effect, and leaves the tables alone at a refused one. */
  lemma StepTakesEffect(t: Tables, op: Op)
    ensures op.Sync? ==> Step(t, op) == OrSame(Applied(t, op.op), t)
    ensures op.Pipeline? ==>
              Step(t, op) == OrSame(PipelineCreate(t, op.user, op.id, op.request, op.batch, op.preset, op.allowed), t)
    ensures op.Edit? ==> Step(t, op) == OrSame(RpcUpdate(t, op.id, op.change, op.allowed), t)
    ensures op.Remove? ==> Step(t, op) == OrSame(RpcDelete(t, op.id, op.allowed), t)
    ensures op.RemoveMany? ==> Step(t, op) == if op.allowed then DeletedEach(t, op.ids) else t
    ensures op.Move? ==> Step(t, op) == OrSame(TransferBetween(t, op.from, op.to, op.amount, op.allowed), t)
  {
    hide Applied, PipelineCreate, RpcUpdate, RpcDelete, TransferBetween, DeletedEach;
  }

  // ---------------------------------------------------------------- a dollar row

  /** A dollar expense of 100 at rate 7, counted as 700, updated to 200: it counts 1400 and the account loses 700 more,
      by request and by push. */
  lemma DollarRow()
    ensures var row := Txn("ann", "cash", "food", 100, "USD", 700, 7.0, false, false);
            var t := Tables(map["cash" := Account(5000, 0, false, true, false)], map["t" := row], [],
                            map["food" := Category(None, false, false)]);
            var edited := RpcUpdate(t, "t", UpdateRequest(Some(200), Absent, None, true, None, true), true);
            var pushed := Applied(t, Update("ann", "t", TxnPayload(Absent, Absent, 200, "", 0, 0.0, "", true), true));
            && edited.Some? && edited.value.txns["t"] == row.(amount := 200, amountCny := 1400)
            && edited.value.accounts["cash"].balance == 4300
            && pushed == edited
  {}
}
