/** Whole runs of every operation that touches a balance. */
module LedgerRuns {
  import opened LedgerTables
  import opened Ledger
  import opened BatchDelete
  import opened MapSum
  import opened Wrappers

  /** Operations a client can push. */
  datatype SyncOp =
    | Create(user: Id, id: Id, payload: TxnPayload, allowed: bool)
    | Update(user: Id, id: Id, payload: TxnPayload, allowed: bool)
    | Delete(user: Id, id: Id)
    | NewAccount(id: Id, nameOk: bool, balance: int, creditCard: bool)
    | DropAccount(id: Id, allowed: bool)
    | EditAccount(id: Id, active: Option<bool>, card: Option<bool>, typeOk: bool, allowed: bool)
    | NewCategory(id: Id, nameOk: bool, typeOk: bool, parent: Ref)
    | EditCategory(id: Id, allowed: bool)
    | DropCategory(id: Id, allowed: bool)
    | Merge(source: Ref, target: Ref, sourceAllowed: bool, targetAllowed: bool)
    | Elsewhere(ok: bool)  // entities and operation types that write none of these tables

  function Applied(t: Tables, op: SyncOp): Option<Tables> {
    match op
    case Create(user, id, p, allowed) => SyncCreate(t, user, id, p, allowed)
    case Update(user, id, p, allowed) => SyncUpdate(t, user, id, p, allowed)
    case Delete(user, id) => SyncDelete(t, user, id)
    case NewAccount(id, nameOk, balance, creditCard) => AccountCreate(t, id, nameOk, balance, creditCard)
    case DropAccount(id, allowed) => AccountDelete(t, id, allowed)
    case EditAccount(id, active, card, typeOk, allowed) => AccountUpdate(t, id, active, card, typeOk, allowed)
    case NewCategory(id, nameOk, typeOk, parent) => CategoryCreate(t, id, nameOk, typeOk, parent)
    case EditCategory(id, allowed) => CategoryUpdate(t, id, allowed)
    case DropCategory(id, allowed) => CategoryDelete(t, id, allowed)
    case Merge(source, target, s, g) => CategoryMerge(t, source, target, s, g)
    case Elsewhere(ok) => if ok then Some(t) else None
  }

  datatype Op =
    | Sync(op: SyncOp)
    | Pipeline(user: Id, id: Id, request: CreateRequest, batch: bool, preset: Option<Id>, allowed: bool)
    | Edit(id: Id, change: UpdateRequest, allowed: bool)
    | Remove(id: Id, allowed: bool)
    | RemoveMany(ids: seq<Id>, allowed: bool)
    | Move(from: Id, to: Id, amount: int, allowed: bool)

  function Effect(t: Tables, op: Op): Option<Tables> {
    match op
    case Sync(sync) => Applied(t, sync)
    case Pipeline(user, id, r, batch, preset, allowed) => PipelineCreate(t, user, id, r, batch, preset, allowed)
    case Edit(id, r, allowed) => RpcUpdate(t, id, r, allowed)
    case Remove(id, allowed) => RpcDelete(t, id, allowed)
    case RemoveMany(ids, allowed) => if allowed then Some(DeletedEach(t, ids)) else None
    case Move(from, to, amount, allowed) => TransferBetween(t, from, to, amount, allowed)
  }

  /** An operation that fails changes nothing. */
  function Step(t: Tables, op: Op): Tables {
    var after := Effect(t, op);
    if after.Some? then after.value else t
  }

  /** The one condition a run needs: RPC edits only of coherent rows, or harmless ones. A preset is a category. */
  predicate Admissible(t: Tables, op: Op) {
    match op
    case Edit(id, r, _) => LiveTxn(t, id) ==> Coherent(t.txns[id]) || Harmless(t.txns[id], r)
    case Pipeline(_, _, _, _, preset, _) => preset.Some? ==> preset.value in t.categories
    case _ => true
  }

  lemma SyncKeeps(t: Tables, op: SyncOp)
    requires WellFormed(t) && Applied(t, op).Some?
    ensures WellFormed(Applied(t, op).value) && SameOpenings(t, Applied(t, op).value)
  {
    hide SyncCreate, SyncUpdate, AccountCreate, CategoryMerge, Removed;
    match op
    case Create(user, id, p, allowed) => SyncCreateKeeps(t, user, id, p, allowed);
    case Update(user, id, p, allowed) => SyncUpdateKeeps(t, user, id, p, allowed);
    case Delete(user, id) => if LiveTxn(t, id) { RemovedKeeps(t, id); }
    case NewAccount(id, nameOk, balance, creditCard) => AccountCreateKeeps(t, id, nameOk, balance, creditCard);
    case DropAccount(id, allowed) =>
    case EditAccount(id, active, card, typeOk, allowed) =>
    case NewCategory(id, nameOk, typeOk, parent) =>
    case EditCategory(id, allowed) =>
    case DropCategory(id, allowed) =>
    case Merge(source, target, s, g) => MergeKeeps(t, source, target, s, g);
    case Elsewhere(ok) =>
  }

  lemma {:induction false} EachKeeps(t: Tables, ids: seq<Id>)
    requires WellFormed(t)
    ensures WellFormed(DeletedEach(t, ids)) && SameOpenings(t, DeletedEach(t, ids))
  {
    hide Removed, WellFormed;
    if ids != [] {
      var before, id := DeletedEach(t, ids[..|ids| - 1]), ids[|ids| - 1];
      EachKeeps(t, ids[..|ids| - 1]);
      if LiveTxn(before, id) {
        RemovedKeeps(before, id);
      }
    }
  }

  lemma StepKeeps(t: Tables, op: Op)
    requires WellFormed(t) && Admissible(t, op)
    ensures WellFormed(Step(t, op)) && SameOpenings(t, Step(t, op))
  {
    if Effect(t, op).Some? {
      hide Applied, PipelineCreate, RpcUpdate, TransferBetween, Removed, WellFormed;
      match op
      case Sync(sync) => SyncKeeps(t, sync);
      case Pipeline(user, id, r, batch, preset, allowed) => PipelineCreateKeeps(t, user, id, r, batch, preset, allowed);
      case Edit(id, r, allowed) =>
        EditedIsLive(t, id, r, allowed);
        RpcUpdateExact(t, id, r, allowed);
      case Remove(id, allowed) => RemovedKeeps(t, id);
      case RemoveMany(ids, allowed) => EachKeeps(t, ids);
      case Move(from, to, amount, allowed) => TransferKeeps(t, from, to, amount, allowed);
    }
  }

  /** The condition is needed: an accepted operation that keeps the opening balances met it. */
  lemma AdmissibleExactly(t: Tables, op: Op)
    requires WellFormed(t) && Effect(t, op).Some? && !op.Pipeline?
    ensures Admissible(t, op) <==> SameOpenings(t, Step(t, op))
  {
    if op.Edit? {
      hide RpcUpdate, WellFormed, SameOpenings, Coherent, Harmless;
      EditedIsLive(t, op.id, op.change, op.allowed);
      RpcUpdateExact(t, op.id, op.change, op.allowed);
    } else {
      StepKeeps(t, op);
    }
  }

  lemma EditedIsLive(t: Tables, id: Id, r: UpdateRequest, allowed: bool)
    requires RpcUpdate(t, id, r, allowed).Some?
    ensures LiveTxn(t, id)
  {}

  function Run(t: Tables, ops: seq<Op>): Tables
    decreases |ops|
  {
    if ops == [] then t else Run(Step(t, ops[0]), ops[1..])
  }

  predicate RunAdmissible(t: Tables, ops: seq<Op>)
    decreases |ops|
  {
    ops == [] || (Admissible(t, ops[0]) && RunAdmissible(Step(t, ops[0]), ops[1..]))
  }

  /** Over every admissible run: each balance is its opening balance plus the signed CNY amounts of the
      account's live transactions plus its net transfers. */
  lemma {:induction false} BalancesAgree(t: Tables, ops: seq<Op>)
    requires WellFormed(t) && RunAdmissible(t, ops)
    ensures var after := Run(t, ops);
            && WellFormed(after)
            && forall a :: a in t.accounts ==>
                 && a in after.accounts
                 && after.accounts[a].balance
                    == Opening(t, a) + Sum(after.txns, EffectOn(a)) + NetTransfers(after.transfers, a)
    decreases |ops|
  {
    hide WellFormed, Step, Admissible, EffectOn, NetTransfers;
    if ops != [] {
      var next := Step(t, ops[0]);
      StepKeeps(t, ops[0]);
      BalancesAgree(next, ops[1..]);
      forall a | a in t.accounts
        ensures a in next.accounts && Opening(next, a) == Opening(t, a)
      {}
    }
  }
}
