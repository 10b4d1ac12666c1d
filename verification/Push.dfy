/** PushOperations (server/internal/sync/service.go): a batch of operations under savepoints,
    deduplicated by client id, recorded in a log. */
module Push {
  import opened LedgerTables
  import opened LedgerRuns
  import opened Wrappers

  /** A row of sync_operations. */
  datatype Entry = Entry(clientId: string, op: SyncOp)

  datatype Server = Server(tables: Tables, log: seq<Entry>)

  /** entityOk: the entity id parses; recordOk: the log row can be inserted. */
  datatype Pushed = Pushed(name: string, clientId: string, entityOk: bool, recordOk: bool, op: SyncOp)

  /** The unique index covers non-empty client ids. */
  predicate Recorded(log: seq<Entry>, clientId: string) {
    clientId != "" && exists i :: 0 <= i < |log| && log[i].clientId == clientId
  }

  /** One operation: a repeated client id is accepted without effect, a failure leaves everything as it was. */
  function PushOne(s: Server, p: Pushed): (Server, bool) {
    if !p.entityOk then (s, false)
    else if Recorded(s.log, p.clientId) then (s, true)
    else if !p.recordOk then (s, false)
    else
      var after := Applied(s.tables, p.op);
      if after.None? then (s, false) else (Server(after.value, s.log + [Entry(p.clientId, p.op)]), true)
  }

  function PushAll(s: Server, ps: seq<Pushed>): Server {
    if ps == [] then s else PushOne(PushAll(s, ps[..|ps| - 1]), ps[|ps| - 1]).0
  }

  /** Whether the last operation of a batch is accepted. */
  predicate LastAccepted(s: Server, ps: seq<Pushed>)
    requires ps != []
  {
    PushOne(PushAll(s, ps[..|ps| - 1]), ps[|ps| - 1]).1
  }

  function Accepted(s: Server, ps: seq<Pushed>): nat {
    if ps == [] then 0 else Accepted(s, ps[..|ps| - 1]) + (if LastAccepted(s, ps) then 1 else 0)
  }

  function Failed(s: Server, ps: seq<Pushed>): seq<string> {
    if ps == [] then []
    else Failed(s, ps[..|ps| - 1]) + (if LastAccepted(s, ps) then [] else [ps[|ps| - 1].name])
  }

  /** Everything pushed is either accepted or named as failed. */
  lemma {:induction false} Accounted(s: Server, ps: seq<Pushed>)
    ensures Accepted(s, ps) + |Failed(s, ps)| == |ps|
  {
    hide PushOne;
    if ps != [] {
      Accounted(s, ps[..|ps| - 1]);
    }
  }

  // ---------------------------------------------------------------- at most once, and faithful to the log

  /** Applying logged operations in order; None if one of them fails. */
  function Replay(t: Tables, log: seq<Entry>): Option<Tables> {
    if log == [] then Some(t)
    else
      var before := Replay(t, log[..|log| - 1]);
      if before.None? then None else Applied(before.value, log[|log| - 1].op)
  }

  /** No two log rows carry the same non-empty client id. */
  ghost predicate UniqueClients(log: seq<Entry>) {
    forall i, j :: 0 <= i < j < |log| && log[i].clientId != "" ==> log[i].clientId != log[j].clientId
  }

  lemma UniqueKept(s: Server, p: Pushed)
    requires UniqueClients(s.log)
    ensures UniqueClients(PushOne(s, p).0.log)
  {
    hide Applied;
  }

  /** Over any batches, retried or not: the log only grows, keeps client ids unique, and the business
      tables are the replay of what it gained, in insertion order. */
  lemma {:induction false} LogFaithful(s: Server, ps: seq<Pushed>)
    requires UniqueClients(s.log)
    ensures var after := PushAll(s, ps);
            && s.log <= after.log
            && UniqueClients(after.log)
            && Replay(s.tables, after.log[|s.log|..]) == Some(after.tables)
  {
    hide Applied;
    var after := PushAll(s, ps);
    if ps == [] {
      assert after.log[|s.log|..] == [];
    } else {
      var before := PushAll(s, ps[..|ps| - 1]);
      LogFaithful(s, ps[..|ps| - 1]);
      UniqueKept(before, ps[|ps| - 1]);
      if after != before {
        var gained := after.log[|s.log|..];
        assert gained[..|gained| - 1] == before.log[|s.log|..];
        assert gained[|gained| - 1] == after.log[|after.log| - 1];
      }
    }
  }

  /** How often a client id stands in the log. */
  function Times(log: seq<Entry>, clientId: string): nat {
    if log == [] then 0
    else Times(log[..|log| - 1], clientId) + (if log[|log| - 1].clientId == clientId then 1 else 0)
  }

  lemma {:induction false} UniqueTimes(log: seq<Entry>, clientId: string)
    requires UniqueClients(log) && clientId != ""
    ensures Times(log, clientId) == if Recorded(log, clientId) then 1 else 0
  {
    if log != [] {
      var before := log[..|log| - 1];
      assert forall i :: 0 <= i < |before| ==> before[i] == log[i];
      UniqueTimes(before, clientId);
      if log[|log| - 1].clientId == clientId {
        assert !Recorded(before, clientId);
        assert Recorded(log, clientId);
      } else if Recorded(log, clientId) {
        var i :| 0 <= i < |log| && log[i].clientId == clientId;
        assert before[i].clientId == clientId;
      }
    }
  }

  /** So an operation with a client id takes effect at most once, however often it is pushed: the log gains it
      at most once, and not at all if it had it. */
  lemma AtMostOnce(s: Server, ps: seq<Pushed>, clientId: string)
    requires UniqueClients(s.log) && clientId != ""
    ensures Times(s.log, clientId) <= Times(PushAll(s, ps).log, clientId) <= 1
  {
    LogFaithful(s, ps);
    UniqueTimes(s.log, clientId);
    UniqueTimes(PushAll(s, ps).log, clientId);
  }

  // ---------------------------------------------------------------- retries

  lemma {:induction false} LogGrows(s: Server, ps: seq<Pushed>)
    ensures s.log <= PushAll(s, ps).log
  {
    hide Applied;
    if ps != [] {
      LogGrows(s, ps[..|ps| - 1]);
    }
  }

  lemma {:induction false} PushedInTwo(s: Server, ps: seq<Pushed>, qs: seq<Pushed>)
    ensures PushAll(s, ps + qs) == PushAll(PushAll(s, ps), qs)
  {
    hide PushOne;
    if qs == [] {
      assert ps + qs == ps;
    } else {
      PushedInTwo(s, ps, qs[..|qs| - 1]);
      assert (ps + qs)[..|ps + qs| - 1] == ps + qs[..|qs| - 1];
    }
  }

  /** Every accepted operation of the batch carries a client id, and none failed. */
  ghost predicate AllLanded(s: Server, ps: seq<Pushed>) {
    forall k :: 0 <= k < |ps| ==> ps[k].clientId != "" && LastAccepted(s, ps[..k + 1])
  }

  lemma LandedIsRecorded(s: Server, ps: seq<Pushed>, k: nat)
    requires k < |ps| && ps[k].clientId != "" && LastAccepted(s, ps[..k + 1])
    ensures ps[k].entityOk && Recorded(PushAll(s, ps).log, ps[k].clientId)
  {
    var before := PushAll(s, ps[..k]);
    assert ps[..k + 1][..k] == ps[..k];
    var after := PushOne(before, ps[k]).0;
    assert Recorded(after.log, ps[k].clientId) by {
      if after != before {
        assert after.log[|after.log| - 1].clientId == ps[k].clientId;
      }
    }
    assert ps == ps[..k + 1] + ps[k + 1..];
    PushedInTwo(s, ps[..k + 1], ps[k + 1..]);
    LogGrows(after, ps[k + 1..]);
  }

  /** Pushing a landed batch again, or any part of it, changes nothing and is accepted whole. */
  lemma {:induction false} RetryChangesNothing(s: Server, ps: seq<Pushed>, again: seq<Pushed>)
    requires AllLanded(s, ps) && forall p :: p in again ==> p in ps
    ensures PushAll(PushAll(s, ps), again) == PushAll(s, ps)
    ensures Accepted(PushAll(s, ps), again) == |again|
  {
    if again != [] {
      RetryChangesNothing(s, ps, again[..|again| - 1]);
      var p := again[|again| - 1];
      assert p in again;
      var k :| 0 <= k < |ps| && ps[k] == p;
      LandedIsRecorded(s, ps, k);
    }
  }

  // ---------------------------------------------------------------- what a push does

  /** The server as operation k finds it. */
  function AtTurn(s: Server, ps: seq<Pushed>, k: nat): Server
    requires k <= |ps|
  {
    PushAll(s, ps[..k])
  }

  /** Its client id, if it has one, stands in the log already. */
  ghost predicate Known(s: Server, ps: seq<Pushed>, k: nat)
    requires k < |ps|
  {
    ps[k].clientId != "" && exists entry :: entry in AtTurn(s, ps, k).log && entry.clientId == ps[k].clientId
  }

  /** It takes effect: well formed, not known, recordable, and it applies to the tables it finds. */
  ghost predicate Lands(s: Server, ps: seq<Pushed>, k: nat)
    requires k < |ps|
  {
    ps[k].entityOk && !Known(s, ps, k) && ps[k].recordOk && Applied(AtTurn(s, ps, k).tables, ps[k].op).Some?
  }

  /** It is named as failed: malformed, or not known and unrecordable or refused. */
  ghost predicate Fails(s: Server, ps: seq<Pushed>, k: nat)
    requires k < |ps|
  {
    !ps[k].entityOk
    || (!Known(s, ps, k) && (!ps[k].recordOk || Applied(AtTurn(s, ps, k).tables, ps[k].op).None?))
  }

  lemma KnownIsRecorded(log: seq<Entry>, clientId: string)
    ensures Recorded(log, clientId) <==> clientId != "" && exists entry :: entry in log && entry.clientId == clientId
  {
    if clientId != "" {
      if entry :| entry in log && entry.clientId == clientId {
        var i :| 0 <= i < |log| && log[i] == entry;
        assert log[i].clientId == clientId;
      }
      if i :| 0 <= i < |log| && log[i].clientId == clientId {
        assert log[i] in log;
      }
    }
  }

  /** One turn: an operation that lands leaves the tables it applies to and its entry in the log and is accepted; a
      known one is accepted without effect; any other changes nothing and fails. */
  lemma Turn(s: Server, ps: seq<Pushed>, k: nat)
    requires k < |ps|
    ensures var before, after := AtTurn(s, ps, k), AtTurn(s, ps, k + 1);
            && (LastAccepted(s, ps[..k + 1]) <==> !Fails(s, ps, k))
            && (Lands(s, ps, k) ==>
                  after == Server(Applied(before.tables, ps[k].op).value,
                                  before.log + [Entry(ps[k].clientId, ps[k].op)]))
            && (!Lands(s, ps, k) ==> after == before)
  {
    assert ps[..k + 1][..k] == ps[..k];
    KnownIsRecorded(AtTurn(s, ps, k).log, ps[k].clientId);
    hide Applied, Recorded;
  }

  /** The entries of the operations among the first n that land, in order. */
  ghost function Landed(s: Server, ps: seq<Pushed>, n: nat): seq<Entry>
    requires n <= |ps|
  {
    if n == 0 then []
    else Landed(s, ps, n - 1) + (if Lands(s, ps, n - 1) then [Entry(ps[n - 1].clientId, ps[n - 1].op)] else [])
  }

  /** The names of those that fail, in order. */
  ghost function FailedNames(s: Server, ps: seq<Pushed>, n: nat): seq<string>
    requires n <= |ps|
  {
    if n == 0 then [] else FailedNames(s, ps, n - 1) + (if Fails(s, ps, n - 1) then [ps[n - 1].name] else [])
  }

  lemma {:induction false} UpToTurn(s: Server, ps: seq<Pushed>, n: nat)
    requires n <= |ps|
    ensures AtTurn(s, ps, n).log == s.log + Landed(s, ps, n)
    ensures Failed(s, ps[..n]) == FailedNames(s, ps, n)
  {
    hide Lands, Fails, PushOne, LastAccepted;
    if n > 0 {
      UpToTurn(s, ps, n - 1);
      Turn(s, ps, n - 1);
      assert ps[..n][..n - 1] == ps[..n - 1];
    }
  }

  /** A whole push: the log gains exactly the operations that land, in order, the tables are their replay, and exactly
      the failing ones are named. */
  lemma PushExactly(s: Server, ps: seq<Pushed>)
    requires UniqueClients(s.log)
    ensures var after, landed := PushAll(s, ps), Landed(s, ps, |ps|);
            && after.log == s.log + landed
            && Replay(s.tables, landed) == Some(after.tables)
            && Failed(s, ps) == FailedNames(s, ps, |ps|)
            && Accepted(s, ps) == |ps| - |FailedNames(s, ps, |ps|)|
  {
    hide PushOne, Lands, Fails, Replay, UniqueClients;
    UpToTurn(s, ps, |ps|);
    LogFaithful(s, ps);
    Accounted(s, ps);
    assert ps[..|ps|] == ps;
    assert (s.log + Landed(s, ps, |ps|))[|s.log|..] == Landed(s, ps, |ps|);
  }

  /** Ann pushes an expense of 30 on an account of 100, the same once more, and one without a client id. */
  function Expenses(): seq<Pushed> {
    [Expense("phone-1", "a"), Expense("phone-1", "a"), Expense("", "b")]
  }

  function Expense(clientId: string, id: Id): Pushed {
    Pushed(id, clientId, true, true,
           Create("ann", id, TxnPayload(Given("cash"), Given("food"), 30, "", 0, 0.0, "expense", true), true))
  }

  function Purse(balance: int): Server {
    Server(Tables(map["cash" := Account(balance, 0, false, true, false)], map[], [],
                  map["food" := Category(None, false, false)]), [])
  }

  /** All are accepted, the first and the last take effect, and 40 are left. */
  lemma PushMovesMoney()
    ensures var s, ps := Purse(100), Expenses();
            && Lands(s, ps, 0) && !Lands(s, ps, 1) && Lands(s, ps, 2)
            && Failed(s, ps) == [] && |PushAll(s, ps).log| == 2
            && "cash" in PushAll(s, ps).tables.accounts && PushAll(s, ps).tables.accounts["cash"].balance == 40
  {
    var s, ps := Purse(100), Expenses();
    var t1 := Applied(s.tables, ps[0].op);
    var s1 := Server(t1.value, [Entry("phone-1", ps[0].op)]);
    var t2 := Applied(s1.tables, ps[2].op);
    hide SyncCreate;
    Turn(s, ps, 0);
    Turn(s, ps, 1);
    Turn(s, ps, 2);
  }
}
