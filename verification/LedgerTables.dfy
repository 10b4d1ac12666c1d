/** Accounts, transactions, transfers and categories, and what each write to them does:
    the sync operations (server/internal/sync/service.go), the transaction RPCs
    (server/internal/transaction) and TransferBetween (server/internal/account/service.go).
    A result of None is an error: the surrounding transaction or savepoint is rolled back. */
module LedgerTables {
  import opened Wrappers

  /** A row id: the text of a UUID. */
  type Id = string

  /** An id as it arrives in a request. */
  datatype Ref = Absent | Malformed | Given(id: Id)

  datatype Account = Account(balance: int, overdraftLimit: int, creditCard: bool, active: bool, deleted: bool)

  datatype Txn = Txn(owner: Id, account: Id, category: Id, amount: int, currency: string, amountCny: int,
                     rate: real, income: bool, deleted: bool)

  datatype Transfer = Transfer(from: Id, to: Id, amount: int)

  datatype Category = Category(parent: Option<Id>, preset: bool, deleted: bool)

  datatype Tables = Tables(accounts: map<Id, Account>, txns: map<Id, Txn>, transfers: seq<Transfer>,
                           categories: map<Id, Category>)

  /** Foreign keys. */
  ghost predicate WellFormed(t: Tables) {
    && (forall id :: id in t.txns ==> t.txns[id].account in t.accounts && t.txns[id].category in t.categories)
    && (forall i :: 0 <= i < |t.transfers| ==> t.transfers[i].from in t.accounts && t.transfers[i].to in t.accounts)
    && (forall c :: c in t.categories && t.categories[c].parent.Some? ==> t.categories[c].parent.value in t.categories)
  }

  /** What a live transaction adds to its account's balance. */
  function Signed(income: bool, amountCny: int): int {
    if income then amountCny else -amountCny
  }

  /** int64(float64): toward zero. */
  function Truncate(x: real): int {
    if x >= 0.0 then x.Floor else -((-x).Floor)
  }

  function IsCny(currency: string): bool {
    currency == "CNY" || currency == ""
  }

  /** The amount in CNY an update computes from a row's own currency and rate. */
  function Converted(currency: string, amount: int, rate: real): int {
    if IsCny(currency) then amount else Truncate(amount as real * rate)
  }

  function LiveTxn(t: Tables, id: Id): bool {
    id in t.txns && !t.txns[id].deleted
  }

  function LiveAccount(t: Tables, id: Id): bool {
    id in t.accounts && !t.accounts[id].deleted
  }

  function LiveCategory(t: Tables, id: Id): bool {
    id in t.categories && !t.categories[id].deleted
  }

  /** UPDATE accounts SET balance = balance + delta WHERE id = account */
  function AddBalance(accounts: map<Id, Account>, account: Id, delta: int): map<Id, Account> {
    if account in accounts then accounts[account := accounts[account].(balance := accounts[account].balance + delta)]
    else accounts
  }

  // ---------------------------------------------------------------- sync operations

  datatype TxnPayload = TxnPayload(account: Ref, category: Ref, amount: int, currency: string, amountCny: int,
                                   rate: real, kind: string, dateOk: bool)

  /** Row written by a sync create: CNY forces the amounts to agree, any kind but income is an expense. */
  function CreatedRow(user: Id, p: TxnPayload): Txn
    requires p.account.Given? && p.category.Given?
  {
    var currency := if p.currency == "" then "CNY" else p.currency;
    Txn(user, p.account.id, p.category.id, p.amount, currency,
        if currency == "CNY" then p.amount else p.amountCny,
        if currency == "CNY" then 1.0 else p.rate,
        p.kind == "income", false)
  }

  function SyncCreate(t: Tables, user: Id, id: Id, p: TxnPayload, allowed: bool): Option<Tables> {
    if !p.account.Given? || !p.category.Given? then None
    else if !LiveAccount(t, p.account.id) || !allowed || !p.dateOk || p.amount <= 0 then None
    else if id in t.txns then Some(t)  // ON CONFLICT (id) DO NOTHING
    else if p.category.id !in t.categories then None
    else
      var row := CreatedRow(user, p);
      Some(t.(txns := t.txns[id := row],
              accounts := AddBalance(t.accounts, row.account, Signed(row.income, row.amountCny))))
  }

  /** The row as a sync update leaves it; blank fields are kept. */
  function UpdatedRow(row: Txn, p: TxnPayload): Txn {
    row.(account := if p.account.Given? then p.account.id else row.account,
         amount := if p.amount > 0 then p.amount else row.amount,
         amountCny := if p.amount > 0 then Converted(row.currency, p.amount, row.rate) else row.amountCny,
         category := if p.category.Given? then p.category.id else row.category,
         income := if p.kind == "income" then true else if p.kind == "expense" then false else row.income)
  }

  function SyncUpdate(t: Tables, user: Id, id: Id, p: TxnPayload, allowed: bool): Option<Tables> {
    if !LiveTxn(t, id) || t.txns[id].owner != user then None
    else
      var was := t.txns[id];
      var moved := p.account.Given? && p.account.id != was.account;
      if p.account.Malformed? || (moved && (!LiveAccount(t, p.account.id) || !allowed)) then None
      else if p.category.Malformed? || (p.category.Given? && p.category.id !in t.categories) || !p.dateOk then None
      else
        var row := UpdatedRow(was, p);
        var before, after := Signed(was.income, was.amountCny), Signed(row.income, row.amountCny);
        if moved then
          var reverted := AddBalance(t.accounts, was.account, -before);
          if after < 0 && reverted[row.account].balance + after < -reverted[row.account].overdraftLimit then None
          else Some(t.(txns := t.txns[id := row], accounts := AddBalance(reverted, row.account, after)))
        else
          Some(t.(txns := t.txns[id := row], accounts := AddBalance(t.accounts, was.account, after - before)))
  }

  /** Soft delete and give the amount back. */
  function Removed(t: Tables, id: Id): Tables
    requires id in t.txns
  {
    var row := t.txns[id];
    t.(txns := t.txns[id := row.(deleted := true)],
       accounts := AddBalance(t.accounts, row.account, -Signed(row.income, row.amountCny)))
  }

  function SyncDelete(t: Tables, user: Id, id: Id): Option<Tables> {
    if !LiveTxn(t, id) then Some(t)
    else if t.txns[id].owner != user then None
    else Some(Removed(t, id))
  }

  function AccountCreate(t: Tables, id: Id, nameOk: bool, balance: int, creditCard: bool): Option<Tables> {
    if !nameOk || id in t.accounts then None
    else Some(t.(accounts := t.accounts[id := Account(balance, 0, creditCard, true, false)]))
  }

  /** is_active and type, where given; name, currency and icon are not in the tables. */
  function AccountUpdate(t: Tables, id: Id, active: Option<bool>, creditCard: Option<bool>, typeOk: bool, allowed: bool)
    : Option<Tables>
  {
    if !LiveAccount(t, id) || !allowed || !typeOk then None
    else
      var was := t.accounts[id];
      Some(t.(accounts := t.accounts[id := was.(
        active := if active.Some? then active.value else was.active,
        creditCard := if creditCard.Some? then creditCard.value else was.creditCard)]))
  }

  function AccountDelete(t: Tables, id: Id, allowed: bool): Option<Tables> {
    if !LiveAccount(t, id) || !allowed then None
    else Some(t.(accounts := t.accounts[id := t.accounts[id].(deleted := true)]))
  }

  /** An upsert: on a known id it resets the parent, and nothing else in the tables. */
  function CategoryCreate(t: Tables, id: Id, nameOk: bool, typeOk: bool, parent: Ref): Option<Tables> {
    if !nameOk || !typeOk || parent.Malformed? then None
    else if parent.Given? && parent.id != id && parent.id !in t.categories then None
    else
      var above := if parent.Given? then Some(parent.id) else None;
      Some(t.(categories := t.categories[id := if id in t.categories then t.categories[id].(parent := above)
                                               else Category(above, false, false)]))
  }

  /** Name, icons and order are not in the tables: only the refusals show. */
  function CategoryUpdate(t: Tables, id: Id, allowed: bool): Option<Tables> {
    if !LiveCategory(t, id) then None
    else if t.categories[id].preset then Some(t)
    else if !allowed then None
    else Some(t)
  }

  /** Deletes the category and its direct children, whatever they are. */
  function CategoryDelete(t: Tables, id: Id, allowed: bool): Option<Tables> {
    if !LiveCategory(t, id) || t.categories[id].preset then Some(t)
    else if !allowed then None
    else Some(t.(categories := map c | c in t.categories ::
      if c == id || t.categories[c].parent == Some(id) then t.categories[c].(deleted := true) else t.categories[c]))
  }

  /** applyCategoryMergeOp's three UPDATEs. */
  function Merged(t: Tables, source: Id, target: Id): Tables
    requires source in t.categories
  {
    var reparented := map c | c in t.categories ::
      if t.categories[c].parent == Some(source) && !t.categories[c].deleted
      then t.categories[c].(parent := Some(target)) else t.categories[c];
    t.(txns := map id | id in t.txns ::
         if t.txns[id].category == source && !t.txns[id].deleted
         then t.txns[id].(category := target) else t.txns[id],
       categories := reparented[source := reparented[source].(deleted := true)])
  }

  function CategoryMerge(t: Tables, source: Ref, target: Ref, sourceAllowed: bool, targetAllowed: bool)
    : Option<Tables>
  {
    if !source.Given? || !target.Given? then None
    else if source == target then Some(t)
    else if !LiveCategory(t, source.id) then Some(t)  // merged or deleted before
    else if t.categories[source.id].preset then Some(t)
    else if !sourceAllowed || !LiveCategory(t, target.id) || !targetAllowed then None
    else Some(Merged(t, source.id, target.id))
  }

  // ---------------------------------------------------------------- transaction RPCs

  datatype CreateRequest = CreateRequest(account: Ref, category: Ref, amount: int, currency: string, amountCny: int,
                                         rate: real, income: bool, noteOk: bool, dateOk: bool)

  const MAX_AMOUNT: int := 99_999_999_999

  predicate ValidCreate(r: CreateRequest) {
    && r.account.Given? && r.category.Given? && 0 < r.amount <= MAX_AMOUNT && r.noteOk && r.dateOk
    && (IsCny(r.currency) || r.amountCny > 0)
  }

  function ParsedRow(user: Id, r: CreateRequest, category: Id): Txn
    requires r.account.Given?
  {
    var cny := IsCny(r.currency);
    Txn(user, r.account.id, category, r.amount, if cny then "CNY" else r.currency,
        if cny then r.amount else r.amountCny, if cny then 1.0 else r.rate, r.income, false)
  }

  /** The category a create ends up with; batch mode falls back to a preset, then to a placeholder. */
  function ResolvedCategory(t: Tables, category: Id, batch: bool, preset: Option<Id>): Option<Id> {
    if LiveCategory(t, category) then Some(category)
    else if !batch then None
    else if preset.Some? then preset
    else Some(category)
  }

  function WithPlaceholder(t: Tables, category: Id): Tables {
    if category in t.categories then t else t.(categories := t.categories[category := Category(None, false, false)])
  }

  /** The create pipeline: all of its effects, or none. `id` is the database's fresh row id. */
  function PipelineCreate(t: Tables, user: Id, id: Id, r: CreateRequest, batch: bool, preset: Option<Id>, allowed: bool)
    : Option<Tables>
  {
    if !ValidCreate(r) || !allowed || !LiveAccount(t, r.account.id) || id in t.txns then None
    else
      var category := ResolvedCategory(t, r.category.id, batch, preset);
      if category.None? then None
      else
        var row, account := ParsedRow(user, r, category.value), t.accounts[r.account.id];
        if !r.income && !batch && !account.creditCard && account.balance < row.amountCny then None
        else
          var placed := WithPlaceholder(t, category.value);
          Some(placed.(txns := t.txns[id := row],
                       accounts := AddBalance(t.accounts, row.account, Signed(row.income, row.amountCny))))
  }

  datatype UpdateRequest = UpdateRequest(amount: Option<int>, category: Ref, income: Option<bool>, typeOk: bool,
                                         currency: Option<string>, dateOk: bool)

  function RpcRow(row: Txn, r: UpdateRequest): Txn {
    row.(amount := if r.amount.Some? then r.amount.value else row.amount,
         amountCny := if r.amount.Some? then Converted(row.currency, r.amount.value, row.rate) else row.amountCny,
         category := if r.category.Given? then r.category.id else row.category,
         income := if r.income.Some? then r.income.value else row.income,
         currency := if r.currency.Some? then r.currency.value else row.currency)
  }

  /** The CNY amount UpdateTransaction books against the balance, recomputed when amount or type changes. */
  function BookedCny(row: Txn, r: UpdateRequest): int {
    var after := RpcRow(row, r);
    if after.amount == row.amount && after.income == row.income then row.amountCny
    else Converted(row.currency, after.amount, row.rate)
  }

  function RpcUpdate(t: Tables, id: Id, r: UpdateRequest, allowed: bool): Option<Tables> {
    if !LiveTxn(t, id) || !allowed then None
    else if (r.amount.Some? && r.amount.value <= 0) || !r.typeOk || !r.dateOk then None
    else if r.category.Malformed? || (r.category.Given? && r.category.id !in t.categories) then None
    else
      var was := t.txns[id];
      var row := RpcRow(was, r);
      var delta := Signed(row.income, BookedCny(was, r)) - Signed(was.income, was.amountCny);
      Some(t.(txns := t.txns[id := row], accounts := AddBalance(t.accounts, was.account, delta)))
  }

  function RpcDelete(t: Tables, id: Id, allowed: bool): Option<Tables> {
    if !LiveTxn(t, id) || !allowed then None else Some(Removed(t, id))
  }

  // ---------------------------------------------------------------- TransferBetween

  function TransferBetween(t: Tables, from: Id, to: Id, amount: int, allowed: bool): Option<Tables> {
    if amount <= 0 || from == to || !allowed then None
    else if !LiveAccount(t, from) || !t.accounts[from].active || !LiveAccount(t, to) || !t.accounts[to].active then None
    else if t.accounts[from].balance < amount then None
    else Some(t.(accounts := AddBalance(AddBalance(t.accounts, from, -amount), to, amount),
                 transfers := t.transfers + [Transfer(from, to, amount)]))
  }
}
