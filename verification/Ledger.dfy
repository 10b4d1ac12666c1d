/** The balance is a cache of the rows: over every run each account's opening balance stays put. */
module Ledger {
  import opened LedgerTables
  import opened MapSum
  import opened Wrappers

  /** What one transaction row adds to one account. */
  function Share(account: Id, row: Txn): int {
    if row.account == account && !row.deleted then Signed(row.income, row.amountCny) else 0
  }

  function EffectOn(account: Id): Txn -> int {
    (row: Txn) => Share(account, row)
  }

  function NetTransfers(transfers: seq<Transfer>, account: Id): int {
    if transfers == [] then 0
    else
      var last := transfers[|transfers| - 1];
      NetTransfers(transfers[..|transfers| - 1], account)
      + (if last.to == account then last.amount else 0) - (if last.from == account then last.amount else 0)
  }

  /** Balance less live transactions less transfers: what the account must have started with. */
  ghost function Opening(t: Tables, account: Id): int
    requires account in t.accounts
  {
    t.accounts[account].balance - Sum(t.txns, EffectOn(account)) - NetTransfers(t.transfers, account)
  }

  /** Every account of `before` is still there, with the same opening balance. */
  ghost predicate SameOpenings(before: Tables, after: Tables) {
    forall a :: a in before.accounts ==> a in after.accounts && Opening(after, a) == Opening(before, a)
  }

  /** Balance change matched by row change: the whole argument for one-row writes. */
  lemma RowWritten(before: Tables, after: Tables, id: Id, row: Txn)
    requires after.txns == before.txns[id := row] && after.transfers == before.transfers
    requires forall a :: a in before.accounts ==>
               && a in after.accounts
               && after.accounts[a].balance - before.accounts[a].balance
                  == Share(a, row) - (if id in before.txns then Share(a, before.txns[id]) else 0)
    ensures SameOpenings(before, after)
  {
    forall a | a in before.accounts
      ensures a in after.accounts && Opening(after, a) == Opening(before, a)
    {
      SumUpdate(before.txns, EffectOn(a), id, row);
    }
  }

  lemma SyncCreateKeeps(t: Tables, user: Id, id: Id, p: TxnPayload, allowed: bool)
    requires WellFormed(t) && SyncCreate(t, user, id, p, allowed).Some?
    ensures var after := SyncCreate(t, user, id, p, allowed).value;
            WellFormed(after) && SameOpenings(t, after)
  {
    if id !in t.txns {
      RowWritten(t, SyncCreate(t, user, id, p, allowed).value, id, CreatedRow(user, p));
    }
  }

  lemma UpdatedRowAccount(row: Txn, p: TxnPayload)
    ensures UpdatedRow(row, p).account == if p.account.Given? then p.account.id else row.account
    ensures UpdatedRow(row, p).category == if p.category.Given? then p.category.id else row.category
    ensures UpdatedRow(row, p).deleted == row.deleted
  {}

  lemma AddBalanceAt(accounts: map<Id, Account>, account: Id, delta: int)
    requires account in accounts
    ensures AddBalance(accounts, account, delta).Keys == accounts.Keys
    ensures forall a :: a in accounts ==>
              AddBalance(accounts, account, delta)[a].balance
                  == accounts[a].balance + (if a == account then delta else 0)
  {}

  /** What a successful update writes. */
  lemma SyncUpdateWrites(t: Tables, user: Id, id: Id, p: TxnPayload, allowed: bool)
    requires SyncUpdate(t, user, id, p, allowed).Some?
    ensures LiveTxn(t, id)
    ensures var after, was := SyncUpdate(t, user, id, p, allowed).value, t.txns[id];
            var row := UpdatedRow(was, p);
            var before, now := Signed(was.income, was.amountCny), Signed(row.income, row.amountCny);
            && after == t.(txns := t.txns[id := row], accounts := after.accounts)
            && row.deleted == false
            && (row.account == was.account || row.account in t.accounts)
            && (row.category == was.category || row.category in t.categories)
            && after.accounts == (if row.account == was.account then AddBalance(t.accounts, was.account, now - before)
                                  else AddBalance(AddBalance(t.accounts, was.account, -before), row.account, now))
  {
    hide Converted;
  }

  lemma MovedBalances(accounts: map<Id, Account>, was: Txn, row: Txn, moved: map<Id, Account>)
    requires was.account in accounts && row.account in accounts && !was.deleted && !row.deleted
    requires var before, now := Signed(was.income, was.amountCny), Signed(row.income, row.amountCny);
             moved == (if row.account == was.account then AddBalance(accounts, was.account, now - before)
                       else AddBalance(AddBalance(accounts, was.account, -before), row.account, now))
    ensures moved.Keys == accounts.Keys
    ensures forall a :: a in accounts ==> moved[a].balance - accounts[a].balance == Share(a, row) - Share(a, was)
  {
    var before, now := Signed(was.income, was.amountCny), Signed(row.income, row.amountCny);
    AddBalanceAt(accounts, was.account, now - before);
    AddBalanceAt(accounts, was.account, -before);
    AddBalanceAt(AddBalance(accounts, was.account, -before), row.account, now);
    hide AddBalance, Signed;
  }

  lemma RowWellFormed(t: Tables, after: Tables, id: Id, row: Txn)
    requires WellFormed(t) && after == t.(txns := t.txns[id := row], accounts := after.accounts)
    requires after.accounts.Keys >= t.accounts.Keys && row.account in t.accounts && row.category in t.categories
    ensures WellFormed(after)
  {}

  /** Including moves to another account and changes of kind. */
  lemma SyncUpdateKeeps(t: Tables, user: Id, id: Id, p: TxnPayload, allowed: bool)
    requires WellFormed(t) && SyncUpdate(t, user, id, p, allowed).Some?
    ensures var after := SyncUpdate(t, user, id, p, allowed).value;
            WellFormed(after) && SameOpenings(t, after)
  {
    SyncUpdateWrites(t, user, id, p, allowed);
    var after, was := SyncUpdate(t, user, id, p, allowed).value, t.txns[id];
    var row := UpdatedRow(was, p);
    assert was.account in t.accounts && was.category in t.categories;
    hide SyncUpdate, UpdatedRow, SameOpenings, AddBalance, WellFormed, Share;
    MovedBalances(t.accounts, was, row, after.accounts);
    RowWellFormed(t, after, id, row);
    RowWritten(t, after, id, row);
  }

  lemma RemovedKeeps(t: Tables, id: Id)
    requires WellFormed(t) && LiveTxn(t, id)
    ensures WellFormed(Removed(t, id)) && SameOpenings(t, Removed(t, id))
  {
    RowWritten(t, Removed(t, id), id, t.txns[id].(deleted := true));
  }

  lemma PipelineCreateKeeps(t: Tables, user: Id, id: Id, r: CreateRequest, batch: bool, preset: Option<Id>,
                            allowed: bool)
    requires WellFormed(t) && (preset.Some? ==> preset.value in t.categories)
    requires PipelineCreate(t, user, id, r, batch, preset, allowed).Some?
    ensures var after := PipelineCreate(t, user, id, r, batch, preset, allowed).value;
            WellFormed(after) && SameOpenings(t, after)
  {
    var category := ResolvedCategory(t, r.category.id, batch, preset).value;
    RowWritten(t, PipelineCreate(t, user, id, r, batch, preset, allowed).value, id, ParsedRow(user, r, category));
  }

  lemma TransferKeeps(t: Tables, from: Id, to: Id, amount: int, allowed: bool)
    requires WellFormed(t) && TransferBetween(t, from, to, amount, allowed).Some?
    ensures var after := TransferBetween(t, from, to, amount, allowed).value;
            WellFormed(after) && SameOpenings(t, after)
    ensures var after := TransferBetween(t, from, to, amount, allowed).value;
            after.accounts[from].balance >= 0
            && after.accounts[from].balance + after.accounts[to].balance
                 == t.accounts[from].balance + t.accounts[to].balance
  {
    var after := TransferBetween(t, from, to, amount, allowed).value;
    assert after.transfers[..|after.transfers| - 1] == t.transfers;
  }

  lemma AccountCreateKeeps(t: Tables, id: Id, nameOk: bool, balance: int, creditCard: bool)
    requires WellFormed(t) && AccountCreate(t, id, nameOk, balance, creditCard).Some?
    ensures var after := AccountCreate(t, id, nameOk, balance, creditCard).value;
            WellFormed(after) && SameOpenings(t, after) && Opening(after, id) == balance
  {
    var after := AccountCreate(t, id, nameOk, balance, creditCard).value;
    NoEffect(t.txns, id);
    NoTransfers(t.transfers, id);
  }

  lemma {:induction false} NoEffect(txns: map<Id, Txn>, account: Id)
    requires forall id :: id in txns ==> txns[id].account != account
    ensures Sum(txns, EffectOn(account)) == 0
    decreases |txns|
  {
    if txns.Keys == {} {
      assert txns == map[];
    } else {
      var id :| id in txns.Keys;
      SumWithout(txns, EffectOn(account), id);
      NoEffect(txns - {id}, account);
    }
  }

  lemma {:induction false} NoTransfers(transfers: seq<Transfer>, account: Id)
    requires forall i :: 0 <= i < |transfers| ==> transfers[i].from != account && transfers[i].to != account
    ensures NetTransfers(transfers, account) == 0
  {
    if transfers != [] {
      NoTransfers(transfers[..|transfers| - 1], account);
    }
  }

  lemma MergeKeeps(t: Tables, source: Ref, target: Ref, sourceAllowed: bool, targetAllowed: bool)
    requires WellFormed(t) && CategoryMerge(t, source, target, sourceAllowed, targetAllowed).Some?
    ensures var after := CategoryMerge(t, source, target, sourceAllowed, targetAllowed).value;
            WellFormed(after) && SameOpenings(t, after) && after.accounts == t.accounts
  {
    var after := CategoryMerge(t, source, target, sourceAllowed, targetAllowed).value;
    if after != t {
      forall a | a in t.accounts
        ensures Opening(after, a) == Opening(t, a)
      {
        SumSame(t.txns, after.txns, EffectOn(a), EffectOn(a));
      }
    }
  }

  // ---------------------------------------------------------------- UpdateTransaction

  /** The row's CNY amount is what its own currency and rate give. */
  predicate Coherent(row: Txn) {
    row.amountCny == Converted(row.currency, row.amount, row.rate)
  }

  /** The requests for which the row written and the amount booked agree on any row:
      a new amount that differs or comes with a new type, or neither a new amount nor a new type. */
  predicate Harmless(row: Txn, r: UpdateRequest) {
    var typeChanges := r.income.Some? && r.income.value != row.income;
    if r.amount.Some? then r.amount.value != row.amount || typeChanges else !typeChanges
  }

  /** UpdateTransaction keeps the opening balances exactly when the row is coherent or the request harmless. */
  lemma RpcUpdateExact(t: Tables, id: Id, r: UpdateRequest, allowed: bool)
    requires WellFormed(t) && RpcUpdate(t, id, r, allowed).Some?
    ensures var after := RpcUpdate(t, id, r, allowed).value;
            && WellFormed(after)
            && (SameOpenings(t, after) <==> Coherent(t.txns[id]) || Harmless(t.txns[id], r))
  {
    hide Converted;
    var after, was := RpcUpdate(t, id, r, allowed).value, t.txns[id];
    var row := RpcRow(was, r);
    assert row.amountCny == BookedCny(was, r) <==> Coherent(was) || Harmless(was, r);
    if row.amountCny == BookedCny(was, r) {
      RowWritten(t, after, id, row);
    } else {
      SumUpdate(t.txns, EffectOn(was.account), id, row);
      assert Opening(after, was.account) != Opening(t, was.account);
    }
  }

  /** A dollar row whose client supplied 710 for 100 at rate 7: changing only its type unbalances the account. */
  lemma RpcUpdateCanUnbalance()
    ensures var row := Txn("user", "cash", "food", 100, "USD", 710, 7.0, false, false);
            var t := Tables(map["cash" := Account(0, 0, false, true, false)], map["t" := row], [],
                            map["food" := Category(None, false, false)]);
            var r := UpdateRequest(None, Absent, Some(true), true, None, true);
            && WellFormed(t) && RpcUpdate(t, "t", r, true).Some?
            && !SameOpenings(t, RpcUpdate(t, "t", r, true).value)
  {
    var row := Txn("user", "cash", "food", 100, "USD", 710, 7.0, false, false);
    var t := Tables(map["cash" := Account(0, 0, false, true, false)], map["t" := row], [],
                            map["food" := Category(None, false, false)]);
    RpcUpdateExact(t, "t", UpdateRequest(None, Absent, Some(true), true, None, true), true);
  }
}
