/** The creation pipeline: stages over shared mutable state, committed whole or rolled back
    (server/internal/transaction/pipeline.go, pipeline_stages.go, create_pipeline.go). */
module CreatePipeline {
  import opened LedgerTables
  import opened LedgerRuns
  import opened Push
  import opened Wrappers

  datatype Stage = Validate | Permission | BeginTx | ResolveCategory | Overdraft | Persist | SyncLog

  /** What the caller and the database contribute: the request, the id and client id the database and
      the uuid generator hand out, the fallback preset, and whether access is granted, before the transaction
      and again inside it. */
  datatype Input = Input(user: Id, request: CreateRequest, batch: bool, allowed: bool, stillAllowed: bool,
                         preset: Option<Id>, freshId: Id, clientId: string)

  /** The fields stages write. tx is the open transaction's view of the database. */
  datatype State = State(parsed: bool, tx: Option<Server>, account: Option<Account>, category: Option<Id>,
                         delta: int, written: bool)

  const BLANK := State(false, None, None, None, 0, false)

  /** The sync record for a created row: a create that any replica can apply. */
  function CreateRecord(user: Id, id: Id, row: Txn): SyncOp {
    Create(user, id, TxnPayload(Given(row.account), Given(row.category), row.amount, row.currency, row.amountCny,
                                row.rate, if row.income then "income" else "expense", true), true)
  }

  /** One stage: the state it leaves and whether it succeeded. A stage may fail after writing. */
  function Executed(db: Server, input: Input, s: State, stage: Stage): (State, bool) {
    var r := input.request;
    match stage
    case Validate => if ValidCreate(r) then (s.(parsed := true), true) else (s, false)
    case Permission => (s, s.parsed && input.allowed)
    case BeginTx =>
      if !s.parsed || !r.account.Given? then (s, false)
      else
        var begun := s.(tx := Some(db));
        if LiveAccount(db.tables, r.account.id) && input.stillAllowed
        then (begun.(account := Some(db.tables.accounts[r.account.id])), true)
        else (begun, false)
    case ResolveCategory =>
      if s.tx.None? || !r.category.Given? then (s, false)
      else
        var tables := s.tx.value.tables;
        var category := ResolvedCategory(tables, r.category.id, input.batch, input.preset);
        if category.None? then (s, false)
        else (s.(category := category, tx := Some(s.tx.value.(tables := WithPlaceholder(tables, category.value)))),
              true)
    case Overdraft =>
      if s.tx.None? || s.account.None? || !r.account.Given? then (s, false)
      else
        var row := ParsedRow(input.user, r, "");
        var booked := s.(delta := Signed(row.income, row.amountCny));
        if row.income || input.batch || s.account.value.creditCard then (booked, true)
        else
          (booked, r.account.id in s.tx.value.tables.accounts
                   && s.tx.value.tables.accounts[r.account.id].balance >= row.amountCny)
    case Persist =>
      if s.tx.None? || s.category.None? || !r.account.Given? || input.freshId in s.tx.value.tables.txns then (s, false)
      else
        var t, row := s.tx.value.tables, ParsedRow(input.user, r, s.category.value);
        (s.(written := true,
            tx := Some(s.tx.value.(tables := t.(txns := t.txns[input.freshId := row],
                                                accounts := AddBalance(t.accounts, row.account, s.delta))))), true)
    case SyncLog =>
      if s.tx.None? || !s.written || input.freshId !in s.tx.value.tables.txns then (s, false)
      else
        var record := Entry(input.clientId, CreateRecord(input.user, input.freshId,
                                                         s.tx.value.tables.txns[input.freshId]));
        (s.(tx := Some(s.tx.value.(log := s.tx.value.log + [record]))), true)
  }

  /** Stages in order, stopping at the first failure. */
  function Ran(db: Server, input: Input, s: State, stages: seq<Stage>): (State, bool)
    decreases |stages|
  {
    if stages == [] then (s, true)
    else
      var next := Executed(db, input, s, stages[0]);
      if next.1 then Ran(db, input, next.0, stages[1..]) else next
  }

  /** What a run leaves in the database: the open transaction if every stage succeeded, else what was there. */
  function Committed(db: Server, input: Input, stages: seq<Stage>): Server {
    var ran := Ran(db, input, BLANK, stages);
    if ran.1 && ran.0.tx.Some? then ran.0.tx.value else db
  }

  const CHECKS := [Validate, Permission, BeginTx, ResolveCategory]
  const WRITES := [Overdraft, Persist, SyncLog]

  /** Both halves of the standard pipeline. */
  const STAGES := CHECKS + WRITES

  lemma {:induction false} RanInTwo(db: Server, input: Input, s: State, xs: seq<Stage>, ys: seq<Stage>)
    ensures Ran(db, input, s, xs + ys) ==
              (if Ran(db, input, s, xs).1 then Ran(db, input, Ran(db, input, s, xs).0, ys) else Ran(db, input, s, xs))
    decreases |xs|
  {
    hide Executed;
    if xs == [] {
      assert xs + ys == ys;
    } else {
      assert (xs + ys)[0] == xs[0] && (xs + ys)[1..] == xs[1..] + ys;
      RanInTwo(db, input, Executed(db, input, s, xs[0]).0, xs[1..], ys);
    }
  }

  /** The state the checks hand to the writing stages. */
  function Checked(db: Server, input: Input, category: Id): State
    requires input.request.account.Given? && LiveAccount(db.tables, input.request.account.id)
  {
    State(true, Some(db.(tables := WithPlaceholder(db.tables, category))),
          Some(db.tables.accounts[input.request.account.id]), Some(category), 0, false)
  }

  lemma ChecksRan(db: Server, input: Input)
    ensures var r := input.request;
            var ran := Ran(db, input, BLANK, CHECKS);
            var pass := ValidCreate(r) && input.allowed && input.stillAllowed && LiveAccount(db.tables, r.account.id);
            && (ran.1 <==> pass && ResolvedCategory(db.tables, r.category.id, input.batch, input.preset).Some?)
            && (ran.1 ==>
                  ran.0 == Checked(db, input,
                                   ResolvedCategory(db.tables, r.category.id, input.batch, input.preset).value))
  {
    hide ResolvedCategory, WithPlaceholder;
    assert CHECKS[1..] == [Permission, BeginTx, ResolveCategory];
    assert CHECKS[1..][1..] == [BeginTx, ResolveCategory];
    assert CHECKS[1..][1..][1..] == [ResolveCategory];
    assert CHECKS[1..][1..][1..][1..] == [];
  }

  lemma WritesRan(db: Server, input: Input, category: Id)
    requires ValidCreate(input.request) && LiveAccount(db.tables, input.request.account.id)
    ensures var t, r := WithPlaceholder(db.tables, category), input.request;
            var row, account := ParsedRow(input.user, r, category), db.tables.accounts[r.account.id];
            var ran := Ran(db, input, Checked(db, input, category), WRITES);
            && (ran.1 <==> (r.income || input.batch || account.creditCard || account.balance >= row.amountCny)
                           && input.freshId !in t.txns)
            && (ran.1 ==> ran.0.tx == Some(Server(
                  t.(txns := t.txns[input.freshId := row],
                     accounts := AddBalance(t.accounts, row.account, Signed(row.income, row.amountCny))),
                  db.log + [Entry(input.clientId, CreateRecord(input.user, input.freshId, row))])))
  {
    hide AddBalance, Signed, CreateRecord;
    assert WRITES[1..] == [Persist, SyncLog];
    assert WRITES[1..][1..] == [SyncLog];
    assert WRITES[1..][1..][1..] == [];
  }

  /** The standard pipeline writes the row, the balance and the log record together, or nothing. */
  lemma PipelineAllOrNothing(db: Server, input: Input)
    ensures var created := PipelineCreate(db.tables, input.user, input.freshId, input.request, input.batch,
                                          input.preset,
                                          input.allowed && input.stillAllowed);
            && Ran(db, input, BLANK, STAGES).1 == created.Some?
            && Committed(db, input, STAGES) ==
                 (if created.None? then db
                  else Server(created.value,
                              db.log + [Entry(input.clientId,
                                              CreateRecord(input.user, input.freshId,
                                                           created.value.txns[input.freshId]))]))
  {
    RanInTwo(db, input, BLANK, CHECKS, WRITES);
    ChecksRan(db, input);
    var r := input.request;
    if ValidCreate(r) && input.allowed && input.stillAllowed && LiveAccount(db.tables, r.account.id) {
      var category := ResolvedCategory(db.tables, r.category.id, input.batch, input.preset);
      if category.Some? {
        WritesRan(db, input, category.value);
      }
    }
    hide Ran, AddBalance, Signed, CreateRecord, ResolvedCategory, Checked, ValidCreate;
  }

  /** The record is faithful: a replica that has the account and the category applies it to the same tables. */
  lemma RecordReplays(t: Tables, user: Id, id: Id, r: CreateRequest, batch: bool, preset: Option<Id>, allowed: bool)
    requires PipelineCreate(t, user, id, r, batch, preset, allowed).Some?
    requires preset.Some? ==> preset.value in t.categories
    ensures var created := PipelineCreate(t, user, id, r, batch, preset, allowed).value;
            var category := ResolvedCategory(t, r.category.id, batch, preset).value;
            Applied(WithPlaceholder(t, category), CreateRecord(user, id, created.txns[id])) == Some(created)
  {}

  /** The database behind the pool, and one run's shared state. */
  class Database {
    var committed: Server

    constructor (s: Server)
      ensures committed == s
    {
      committed := s;
    }
  }

  class PipelineState {
    const db: Database
    const input: Input
    var state: State

    constructor (db: Database, input: Input)
      ensures this.db == db && this.input == input && state == BLANK
    {
      this.db, this.input, state := db, input, BLANK;
    }

    method Execute(stage: Stage) returns (ok: bool)
      modifies this`state
      ensures (state, ok) == Executed(db.committed, input, old(state), stage)
    {
      var r := input.request;
      match stage {
        case Validate =>
          if !ValidCreate(r) {
            return false;
          }
          state := state.(parsed := true);
        case Permission =>
          return state.parsed && input.allowed;
        case BeginTx =>
          if !state.parsed || !r.account.Given? {
            return false;
          }
          state := state.(tx := Some(db.committed));
          var accounts := db.committed.tables.accounts;
          if r.account.id !in accounts || accounts[r.account.id].deleted || !input.stillAllowed {
            return false;
          }
          state := state.(account := Some(accounts[r.account.id]));
        case ResolveCategory =>
          if state.tx.None? || !r.category.Given? {
            return false;
          }
          var tx := state.tx.value;
          var category := r.category.id;
          if category !in tx.tables.categories || tx.tables.categories[category].deleted {
            if !input.batch {
              return false;
            }
            if input.preset.Some? {
              category := input.preset.value;
            }
          }
          var tables := WithPlaceholder(tx.tables, category);
          state := state.(category := Some(category), tx := Some(tx.(tables := tables)));
        case Overdraft =>
          if state.tx.None? || state.account.None? || !r.account.Given? {
            return false;
          }
          var amountCny := if IsCny(r.currency) then r.amount else r.amountCny;
          state := state.(delta := amountCny);
          if !r.income {
            state := state.(delta := -amountCny);
            if input.batch || state.account.value.creditCard {
              return true;
            }
            var accounts := state.tx.value.tables.accounts;
            return r.account.id in accounts && accounts[r.account.id].balance >= amountCny;
          }
        case Persist =>
          if state.tx.None? || state.category.None? || !r.account.Given?
             || input.freshId in state.tx.value.tables.txns {
            return false;
          }
          var tables, row := state.tx.value.tables, ParsedRow(input.user, r, state.category.value);
          tables := tables.(txns := tables.txns[input.freshId := row]);
          tables := tables.(accounts := AddBalance(tables.accounts, row.account, state.delta));
          state := state.(written := true, tx := Some(state.tx.value.(tables := tables)));
        case SyncLog =>
          if state.tx.None? || !state.written || input.freshId !in state.tx.value.tables.txns {
            return false;
          }
          var tx := state.tx.value;
          var record := Entry(input.clientId, CreateRecord(input.user, input.freshId, tx.tables.txns[input.freshId]));
          state := state.(tx := Some(tx.(log := tx.log + [record])));
      }
      return true;
    }

    /** Whatever the stages: commit at the end, roll back otherwise, and never leave a transaction open. */
    method Run(stages: seq<Stage>) returns (ok: bool)
      requires state == BLANK
      modifies this`state, db
      ensures ok == Ran(old(db.committed), input, BLANK, stages).1
      ensures db.committed == Committed(old(db.committed), input, stages)
      ensures state.tx == None
    {
      hide Executed;
      var i := 0;
      while i < |stages|
        invariant 0 <= i <= |stages|
        invariant db.committed == old(db.committed)
        invariant Ran(db.committed, input, state, stages[i..]) == Ran(db.committed, input, BLANK, stages)
      {
        assert stages[i..][1..] == stages[i + 1..];
        var done := Execute(stages[i]);
        if !done {
          state := state.(tx := None);
          return false;
        }
        i := i + 1;
      }
      if state.tx.Some? {
        db.committed := state.tx.value;
        state := state.(tx := None);
      }
      return true;
    }
  }
}
