/** The WebSocket hub as a concurrent protocol (server/pkg/ws/hub.go): connections move in small atomic
    steps, in any interleaving, over one atomic counter and one locked table. */
module HubProtocol {
  import opened HubTable

  type Conn = int

  /** Where one connection's goroutine stands. */
  datatype Phase =
    | Reserved(count: int)    // the counter's value after its increment
    | Upgrading               // admitted below the limit
    | Handshaking             // waiting for the auth message
    | Verified(user: User)    // token accepted, about to register
    | Registered(user: User)  // in the table, sending auth_ok
    | Leaving                 // handshake function returning
    | QueryVerified(user: User) // legacy path: token in the query string, nothing reserved
    | Done

  datatype Config = Config(maxPending: int, maxConns: int)

  /** owner: the user each client ever registered for; closed: clients whose channels were closed. */
  datatype Hub = Hub(clients: map<User, set<Conn>>, pending: int, phase: map<Conn, Phase>,
                     owner: map<Conn, User>, closed: set<Conn>)

  datatype Step =
    | Arrive | Reject | Admit | UpgradeFail | UpgradeOk | AuthFail | AuthOk(user: User)
    | Register | SendFail | SendOk | Release | QueryArrive(user: User) | QueryRegister | Disconnect

  const INITIAL := Hub(map[], 0, map[], map[], {})

  predicate OverLimit(count: int, cfg: Config) {
    cfg.maxPending > 0 && count > cfg.maxPending
  }

  predicate Enabled(h: Hub, cfg: Config, c: Conn, step: Step) {
    match step
    case Arrive => c !in h.phase
    case QueryArrive(_) => c !in h.phase
    case Reject => c in h.phase && h.phase[c].Reserved? && OverLimit(h.phase[c].count, cfg)
    case Admit => c in h.phase && h.phase[c].Reserved? && !OverLimit(h.phase[c].count, cfg)
    case UpgradeFail => c in h.phase && h.phase[c].Upgrading?
    case UpgradeOk => c in h.phase && h.phase[c].Upgrading?
    case AuthFail => c in h.phase && h.phase[c].Handshaking?
    case AuthOk(_) => c in h.phase && h.phase[c].Handshaking?
    case Register => c in h.phase && h.phase[c].Verified?
    case SendFail => c in h.phase && h.phase[c].Registered?
    case SendOk => c in h.phase && h.phase[c].Registered?
    case Release => c in h.phase && h.phase[c].Leaving?
    case QueryRegister => c in h.phase && h.phase[c].QueryVerified?
    case Disconnect => c in h.owner
  }

  function Unregistered(h: Hub, c: Conn): Hub
    requires c in h.owner
  {
    if c in h.closed then h  // once.Do has run
    else h.(clients := Leave(h.clients, h.owner[c], c), closed := h.closed + {c})
  }

  function RegisteredAs(h: Hub, cfg: Config, c: Conn, user: User, joined: Phase, refused: Phase): Hub {
    var joining := Join(h.clients, user, c, cfg.maxConns);
    if joining.1 then h.(clients := joining.0, owner := h.owner[c := user], phase := h.phase[c := joined])
    else h.(phase := h.phase[c := refused])
  }

  function Next(h: Hub, cfg: Config, c: Conn, step: Step): Hub
    requires Enabled(h, cfg, c, step)
  {
    match step
    case Arrive => h.(pending := h.pending + 1, phase := h.phase[c := Reserved(h.pending + 1)])
    case Reject => h.(pending := h.pending - 1, phase := h.phase[c := Done])
    case Admit => h.(phase := h.phase[c := Upgrading])
    case UpgradeFail => h.(pending := h.pending - 1, phase := h.phase[c := Done])
    case UpgradeOk => h.(phase := h.phase[c := Handshaking])
    case AuthFail => h.(phase := h.phase[c := Leaving])
    case AuthOk(user) => h.(phase := h.phase[c := Verified(user)])
    case Register => RegisteredAs(h, cfg, c, h.phase[c].user, Registered(h.phase[c].user), Leaving)
    case SendFail => if c in h.owner then Unregistered(h, c).(phase := h.phase[c := Leaving]) else h
    case SendOk => h.(phase := h.phase[c := Leaving])
    case Release => h.(pending := h.pending - 1, phase := h.phase[c := Done])
    case QueryArrive(user) => h.(phase := h.phase[c := QueryVerified(user)])
    case QueryRegister => RegisteredAs(h, cfg, c, h.phase[c].user, Done, Done)
    case Disconnect => Unregistered(h, c)
  }

  // ---------------------------------------------------------------- the invariant

  predicate Holds(p: Phase) {
    !p.Done? && !p.QueryVerified?
  }

  /** Connections with an outstanding reservation. */
  function Holders(phase: map<Conn, Phase>): set<Conn> {
    set c | c in phase && Holds(phase[c])
  }

  /** Those among them that are past the limit check, or will pass it. */
  function Admitted(h: Hub, cfg: Config): set<Conn> {
    set c | c in h.phase && Holds(h.phase[c]) && !(h.phase[c].Reserved? && OverLimit(h.phase[c].count, cfg))
  }

  /** The counter is the number of outstanding reservations, of which at most MaxPendingAuth are admitted. */
  ghost predicate Counted(h: Hub, cfg: Config) {
    && h.pending == |Holders(h.phase)|
    && (cfg.maxPending > 0 ==> |Admitted(h, cfg)| <= cfg.maxPending)
  }

  /** The table holds exactly the clients that registered and are still open, each under its own user. */
  ghost predicate TableExact(h: Hub) {
    && (forall user, c :: user in h.clients && c in h.clients[user] ==>
          c in h.owner && h.owner[c] == user && c !in h.closed)
    && (forall c :: c in h.owner && c !in h.closed ==> h.owner[c] in h.clients && c in h.clients[h.owner[c]])
  }

  /** A connection registers at most once, and is closed only after it did. */
  ghost predicate PhasesAgree(h: Hub) {
    && (forall c :: c in h.owner ==>
          c in h.phase && (h.phase[c].Registered? || h.phase[c].Leaving? || h.phase[c].Done?))
    && (forall c :: c in h.phase && h.phase[c].Registered? ==> c in h.owner)
    && h.closed <= h.owner.Keys
  }

  ghost predicate Safe(h: Hub, cfg: Config) {
    Counted(h, cfg) && Capped(h.clients, cfg.maxConns) && TableExact(h) && PhasesAgree(h)
  }

  lemma InitiallySafe(cfg: Config)
    ensures Safe(INITIAL, cfg)
  {}

  lemma HoldersUpdate(phase: map<Conn, Phase>, c: Conn, p: Phase)
    ensures Holders(phase[c := p]) == if Holds(p) then Holders(phase) + {c} else Holders(phase) - {c}
  {}

  /** The phase a step leaves its connection in; a disconnect touches no handshake. */
  lemma PhaseMove(h: Hub, cfg: Config, c: Conn, step: Step) returns (p: Phase)
    requires Enabled(h, cfg, c, step) && PhasesAgree(h) && step != Disconnect
    ensures Next(h, cfg, c, step).phase == h.phase[c := p]
    ensures Holds(p) <==>
              step != Reject && step != UpgradeFail && step != Release && !step.QueryArrive? && step != QueryRegister
    ensures step.Arrive? || step.QueryArrive? || step.QueryRegister? ==> c !in Holders(h.phase)
    ensures !(step.Arrive? || step.QueryArrive? || step.QueryRegister?) ==> c in Holders(h.phase)
    ensures Next(h, cfg, c, step).pending - h.pending ==
            (if step == Arrive then 1 else if step == Reject || step == UpgradeFail || step == Release then -1 else 0)
  {
    hide Join, Leave;
    p := Next(h, cfg, c, step).phase[c];
  }

  lemma DisconnectMove(h: Hub, cfg: Config, c: Conn)
    requires Enabled(h, cfg, c, Disconnect)
    ensures var after := Next(h, cfg, c, Disconnect); after.pending == h.pending && after.phase == h.phase
  {
    hide Leave;
  }

  /** The counter moves with the holders. */
  lemma HoldersMove(h: Hub, cfg: Config, c: Conn, step: Step)
    requires Enabled(h, cfg, c, step) && PhasesAgree(h)
    ensures Next(h, cfg, c, step).pending - h.pending == |Holders(Next(h, cfg, c, step).phase)| - |Holders(h.phase)|
  {
    hide Next, Enabled, Holders, PhasesAgree;
    if step == Disconnect {
      DisconnectMove(h, cfg, c);
    } else {
      var p := PhaseMove(h, cfg, c, step);
      HoldersUpdate(h.phase, c, p);
      if c in Holders(h.phase) && Holds(p) {
        assert Holders(h.phase) + {c} == Holders(h.phase);
      } else if c !in Holders(h.phase) && !Holds(p) {
        assert Holders(h.phase) - {c} == Holders(h.phase);
      }
    }
  }

  lemma AdmittedMove(h: Hub, cfg: Config, c: Conn, step: Step)
    requires Enabled(h, cfg, c, step) && PhasesAgree(h)
    ensures var after := Next(h, cfg, c, step);
            && Admitted(h, cfg) <= Holders(h.phase)
            && Admitted(after, cfg) <= (if step == Arrive then Admitted(h, cfg) + {c} else Admitted(h, cfg))
            && (step == Arrive && OverLimit(h.pending + 1, cfg) ==> Admitted(after, cfg) <= Admitted(h, cfg))
  {}

  lemma CountedKept(h: Hub, cfg: Config, c: Conn, step: Step)
    requires Enabled(h, cfg, c, step) && PhasesAgree(h) && Counted(h, cfg)
    ensures Counted(Next(h, cfg, c, step), cfg)
  {
    HoldersMove(h, cfg, c, step);
    AdmittedMove(h, cfg, c, step);
    var after := Next(h, cfg, c, step);
    hide Next, Enabled, Holders, Admitted, PhasesAgree;
    SubsetSmaller(Admitted(h, cfg), Holders(h.phase));
    if step == Arrive && !OverLimit(h.pending + 1, cfg) {
      SubsetSmaller(Admitted(after, cfg), Admitted(h, cfg) + {c});
      assert |Admitted(h, cfg) + {c}| <= |Admitted(h, cfg)| + 1;
    } else {
      SubsetSmaller(Admitted(after, cfg), Admitted(h, cfg));
    }
  }

  lemma CappedKept(h: Hub, cfg: Config, c: Conn, step: Step)
    requires Enabled(h, cfg, c, step) && Capped(h.clients, cfg.maxConns)
    ensures Capped(Next(h, cfg, c, step).clients, cfg.maxConns)
  {
    hide Capped, Join, Leave;
    if step.Register? || step.QueryRegister? {
      JoinCapped(h.clients, h.phase[c].user, c, cfg.maxConns);
    } else if (step.SendFail? || step.Disconnect?) && c in h.owner {
      LeaveCapped(h.clients, h.owner[c], c, cfg.maxConns);
    }
  }

  lemma RegisteredExact(h: Hub, cfg: Config, c: Conn, user: User, joined: Phase, refused: Phase)
    requires TableExact(h) && c !in h.owner && c !in h.closed
    ensures TableExact(RegisteredAs(h, cfg, c, user, joined, refused))
  {}

  lemma UnregisteredExact(h: Hub, c: Conn)
    requires TableExact(h) && c in h.owner
    ensures TableExact(Unregistered(h, c))
  {}

  lemma TableKept(h: Hub, cfg: Config, c: Conn, step: Step)
    requires Enabled(h, cfg, c, step) && TableExact(h) && PhasesAgree(h)
    ensures TableExact(Next(h, cfg, c, step))
  {
    if step.Register? {
      RegisteredExact(h, cfg, c, h.phase[c].user, Registered(h.phase[c].user), Leaving);
    } else if step.QueryRegister? {
      RegisteredExact(h, cfg, c, h.phase[c].user, Done, Done);
    } else if step.SendFail? || step.Disconnect? {
      hide Leave;
      UnregisteredExact(h, c);
    }
  }

  lemma PhasesKept(h: Hub, cfg: Config, c: Conn, step: Step)
    requires Enabled(h, cfg, c, step) && PhasesAgree(h)
    ensures PhasesAgree(Next(h, cfg, c, step))
  {}

  /** Every enabled step of any connection keeps the hub safe. */
  lemma StepSafe(h: Hub, cfg: Config, c: Conn, step: Step)
    requires Safe(h, cfg) && Enabled(h, cfg, c, step)
    ensures Safe(Next(h, cfg, c, step), cfg)
  {
    hide Next, Enabled;
    CountedKept(h, cfg, c, step);
    CappedKept(h, cfg, c, step);
    TableKept(h, cfg, c, step);
    PhasesKept(h, cfg, c, step);
  }

  // ---------------------------------------------------------------- runs

  /** A schedule: which connection steps, and how. */
  predicate Possible(h: Hub, cfg: Config, run: seq<(Conn, Step)>)
    decreases |run|
  {
    run == [] || (Enabled(h, cfg, run[0].0, run[0].1) && Possible(Next(h, cfg, run[0].0, run[0].1), cfg, run[1..]))
  }

  function Final(h: Hub, cfg: Config, run: seq<(Conn, Step)>): Hub
    requires Possible(h, cfg, run)
    decreases |run|
  {
    if run == [] then h else Final(Next(h, cfg, run[0].0, run[0].1), cfg, run[1..])
  }

  /** Under every interleaving the hub is safe. */
  lemma {:induction false} RunSafe(h: Hub, cfg: Config, run: seq<(Conn, Step)>)
    requires Safe(h, cfg) && Possible(h, cfg, run)
    ensures Safe(Final(h, cfg, run), cfg)
    decreases |run|
  {
    hide Safe, Next, Enabled;
    if run != [] {
      StepSafe(h, cfg, run[0].0, run[0].1);
      RunSafe(Next(h, cfg, run[0].0, run[0].1), cfg, run[1..]);
    }
  }

  /** Handshakes actually in progress: past the limit check, not yet released. */
  function Handshakes(h: Hub): set<Conn> {
    set c | c in h.phase && Holds(h.phase[c]) && !h.phase[c].Reserved?
  }

  /** The user's clients that registered and have not been closed. */
  function OpenClients(h: Hub, user: User): set<Conn> {
    set c | c in h.owner && h.owner[c] == user && c !in h.closed
  }

  /** What that means from outside, at any point of any run: handshakes in progress are within the limit
      whatever the rejected overshoot, the counter settles to zero with them, and a broadcast meets
      only open channels, at most MaxConnsPerUser of them, and misses no open client. */
  lemma HubSafety(cfg: Config, run: seq<(Conn, Step)>)
    requires Possible(INITIAL, cfg, run)
    ensures var h := Final(INITIAL, cfg, run);
            && (cfg.maxPending > 0 ==> |Handshakes(h)| <= cfg.maxPending)
            && h.pending >= 0
            && ((forall c :: c in h.phase ==> !Holds(h.phase[c])) ==> h.pending == 0)
            && (forall user :: user in h.clients ==>
                  && h.clients[user] != {}
                  && (cfg.maxConns > 0 ==> |h.clients[user]| <= cfg.maxConns)
                  && h.clients[user] == OpenClients(h, user))
            && (forall user :: user !in h.clients ==> OpenClients(h, user) == {})
  {
    InitiallySafe(cfg);
    RunSafe(INITIAL, cfg, run);
    var h := Final(INITIAL, cfg, run);
    hide Possible, Final;
    SafeFromOutside(h, cfg);
  }

  lemma SafeFromOutside(h: Hub, cfg: Config)
    requires Safe(h, cfg)
    ensures cfg.maxPending > 0 ==> |Handshakes(h)| <= cfg.maxPending
    ensures h.pending >= 0 && ((forall c :: c in h.phase ==> !Holds(h.phase[c])) ==> h.pending == 0)
    ensures forall user :: user in h.clients ==>
              && h.clients[user] != {}
              && (cfg.maxConns > 0 ==> |h.clients[user]| <= cfg.maxConns)
              && h.clients[user] == OpenClients(h, user)
    ensures forall user :: user !in h.clients ==> OpenClients(h, user) == {}
  {
    if forall c :: c in h.phase ==> !Holds(h.phase[c]) {
      assert Holders(h.phase) == {};
    }
    if cfg.maxPending > 0 {
      assert Handshakes(h) <= Admitted(h, cfg);
      SubsetSmaller(Handshakes(h), Admitted(h, cfg));
    }
    forall user
      ensures OpenClients(h, user) == if user in h.clients then h.clients[user] else {}
    {
      if user in h.clients {
        assert forall c :: c in OpenClients(h, user) <==> c in h.clients[user];
      } else {
        assert forall c :: c !in OpenClients(h, user);
      }
    }
  }

  // ---------------------------------------------------------------- who is refused

  /** No other connection's step moves a connection. */
  lemma OthersStay(h: Hub, cfg: Config, other: Conn, step: Step, c: Conn)
    requires Enabled(h, cfg, other, step) && other != c && c in h.phase
    ensures c in Next(h, cfg, other, step).phase && Next(h, cfg, other, step).phase[c] == h.phase[c]
  {
    hide Join, Leave;
  }

  lemma {:induction false} OthersRun(h: Hub, cfg: Config, run: seq<(Conn, Step)>, c: Conn)
    requires Possible(h, cfg, run) && c in h.phase && forall i :: 0 <= i < |run| ==> run[i].0 != c
    ensures c in Final(h, cfg, run).phase && Final(h, cfg, run).phase[c] == h.phase[c]
    decreases |run|
  {
    hide Next, Enabled;
    if run != [] {
      OthersStay(h, cfg, run[0].0, run[0].1, c);
      OthersRun(Next(h, cfg, run[0].0, run[0].1), cfg, run[1..], c);
    }
  }

  /** A connection is refused exactly when the outstanding reservations at its arrival reach the limit,
      whatever happens between its arrival and its check. */
  lemma RefusedExactly(cfg: Config, before: seq<(Conn, Step)>, c: Conn, between: seq<(Conn, Step)>)
    requires Possible(INITIAL, cfg, before) && Enabled(Final(INITIAL, cfg, before), cfg, c, Arrive)
    requires Possible(Next(Final(INITIAL, cfg, before), cfg, c, Arrive), cfg, between)
    requires forall i :: 0 <= i < |between| ==> between[i].0 != c
    ensures var h := Final(INITIAL, cfg, before);
            var now := Final(Next(h, cfg, c, Arrive), cfg, between);
            var full := cfg.maxPending > 0 && |Holders(h.phase)| >= cfg.maxPending;
            && (Enabled(now, cfg, c, Reject) <==> full)
            && (Enabled(now, cfg, c, Admit) <==> !full)
  {
    hide Possible, Final, Holders;
    InitiallySafe(cfg);
    RunSafe(INITIAL, cfg, before);
    var h := Final(INITIAL, cfg, before);
    assert h.pending == |Holders(h.phase)|;
    OthersRun(Next(h, cfg, c, Arrive), cfg, between, c);
  }

  /** One slot. The first connection gets it and its upgrade fails; the second, which was over the limit, has not yet
      given its reservation back when the third arrives. */
  function Overshoot(): seq<(Conn, Step)> {
    [(1, Arrive), (1, Admit), (2, Arrive), (1, UpgradeFail)]
  }

  /** So the third is refused, and the second after it, with no handshake in progress. */
  lemma RefusedWithoutHandshakes()
    ensures var cfg := Config(1, 0);
            && Possible(INITIAL, cfg, Overshoot())
            && Handshakes(Final(INITIAL, cfg, Overshoot())) == {}
            && Possible(Final(INITIAL, cfg, Overshoot()), cfg, [(3, Arrive), (3, Reject), (2, Reject)])
  {
    var cfg := Config(1, 0);
    var a := Next(INITIAL, cfg, 1, Arrive);
    var b := Next(a, cfg, 1, Admit);
    var c := Next(b, cfg, 2, Arrive);
    var d := Next(c, cfg, 1, UpgradeFail);
    var e := Next(d, cfg, 3, Arrive);
    var f := Next(e, cfg, 3, Reject);
    hide Next;
    Steps4(INITIAL, cfg, Overshoot(), a, b, c, d);
    Steps3(d, cfg, [(3, Arrive), (3, Reject), (2, Reject)], e, f);
  }

  lemma Steps4(h: Hub, cfg: Config, run: seq<(Conn, Step)>, a: Hub, b: Hub, c: Hub, d: Hub)
    requires |run| == 4 && Enabled(h, cfg, run[0].0, run[0].1) && a == Next(h, cfg, run[0].0, run[0].1)
    requires Enabled(a, cfg, run[1].0, run[1].1) && b == Next(a, cfg, run[1].0, run[1].1)
    requires Enabled(b, cfg, run[2].0, run[2].1) && c == Next(b, cfg, run[2].0, run[2].1)
    requires Enabled(c, cfg, run[3].0, run[3].1) && d == Next(c, cfg, run[3].0, run[3].1)
    ensures Possible(h, cfg, run) && Final(h, cfg, run) == d
  {
    hide Next, Enabled;
    assert run[1..][1..] == run[2..] && run[2..][1..] == run[3..] && run[3..][1..] == [];
    assert Possible(c, cfg, run[3..]) && Final(c, cfg, run[3..]) == d;
    assert Possible(b, cfg, run[2..]) && Final(b, cfg, run[2..]) == d;
    assert Possible(a, cfg, run[1..]) && Final(a, cfg, run[1..]) == d;
  }

  lemma Steps3(h: Hub, cfg: Config, run: seq<(Conn, Step)>, a: Hub, b: Hub)
    requires |run| == 3 && Enabled(h, cfg, run[0].0, run[0].1) && a == Next(h, cfg, run[0].0, run[0].1)
    requires Enabled(a, cfg, run[1].0, run[1].1) && b == Next(a, cfg, run[1].0, run[1].1)
    requires Enabled(b, cfg, run[2].0, run[2].1)
    ensures Possible(h, cfg, run)
  {
    hide Next, Enabled;
    assert run[1..][1..] == run[2..] && run[2..][1..] == [];
    assert Possible(b, cfg, run[2..]);
    assert Possible(a, cfg, run[1..]);
  }

  // ---------------------------------------------------------------- who gets in

  /** A handshake that goes well, step by step. */
  function GoodHandshake(c: Conn, user: User): seq<(Conn, Step)> {
    [(c, Arrive), (c, Admit), (c, UpgradeOk), (c, AuthOk(user)), (c, Register), (c, SendOk), (c, Release)]
  }

  /** After a first step. */
  lemma OneStep(h: Hub, cfg: Config, run: seq<(Conn, Step)>, next: Hub)
    requires run != [] && Enabled(h, cfg, run[0].0, run[0].1) && next == Next(h, cfg, run[0].0, run[0].1)
    requires Possible(next, cfg, run[1..])
    ensures Possible(h, cfg, run) && Final(h, cfg, run) == Final(next, cfg, run[1..])
  {
    hide Next, Enabled;
  }

  lemma NoSteps(h: Hub, cfg: Config)
    ensures Possible(h, cfg, []) && Final(h, cfg, []) == h
  {}

  function WithPhase(h: Hub, c: Conn, p: Phase): Hub {
    h.(phase := h.phase[c := p])
  }

  /** Steps that touch nothing but their connection's phase. */
  lemma PhaseOnly(h: Hub, cfg: Config, c: Conn, p: Phase, step: Step, q: Phase)
    requires || (p.Reserved? && !OverLimit(p.count, cfg) && step == Admit && q == Upgrading)
             || (p == Upgrading && step == UpgradeOk && q == Handshaking)
             || (p == Handshaking && step.AuthOk? && q == Verified(step.user))
             || (p.Registered? && step == SendOk && q == Leaving)
    ensures Enabled(WithPhase(h, c, p), cfg, c, step) && Next(WithPhase(h, c, p), cfg, c, step) == WithPhase(h, c, q)
  {
    assert h.phase[c := p][c := q] == h.phase[c := q];
  }

  lemma FirstStep(h: Hub, cfg: Config, c: Conn)
    requires c !in h.phase
    ensures Enabled(h, cfg, c, Arrive)
    ensures Next(h, cfg, c, Arrive) == WithPhase(h.(pending := h.pending + 1), c, Reserved(h.pending + 1))
  {}

  lemma LastStep(h: Hub, cfg: Config, c: Conn)
    ensures Enabled(WithPhase(h, c, Leaving), cfg, c, Release)
    ensures Next(WithPhase(h, c, Leaving), cfg, c, Release) == WithPhase(h.(pending := h.pending - 1), c, Done)
  {
    assert h.phase[c := Leaving][c := Done] == h.phase[c := Done];
  }

  /** The hub with a client added below the cap. */
  function Entered(h: Hub, cfg: Config, c: Conn, user: User): Hub {
    h.(clients := Join(h.clients, user, c, cfg.maxConns).0, owner := h.owner[c := user])
  }

  lemma RegisterStep(h: Hub, cfg: Config, c: Conn, user: User)
    requires cfg.maxConns <= 0 || |Of(h.clients, user)| < cfg.maxConns
    ensures Enabled(WithPhase(h, c, Verified(user)), cfg, c, Register)
    ensures Next(WithPhase(h, c, Verified(user)), cfg, c, Register)
            == WithPhase(Entered(h, cfg, c, user), c, Registered(user))
  {
    JoinExact(h.clients, user, c, cfg.maxConns);
    hide Join;
    assert h.phase[c := Verified(user)][c := Registered(user)] == h.phase[c := Registered(user)];
  }

  lemma Steps(h: Hub, cfg: Config, c: Conn, user: User)
    requires c !in h.phase && !OverLimit(h.pending + 1, cfg)
    requires cfg.maxConns <= 0 || |Of(h.clients, user)| < cfg.maxConns
    ensures Possible(h, cfg, GoodHandshake(c, user))
    ensures Final(h, cfg, GoodHandshake(c, user)) == WithPhase(Entered(h, cfg, c, user), c, Done)
  {
    var run := GoodHandshake(c, user);
    assert run[1..][1..] == run[2..] && run[2..][1..] == run[3..] && run[3..][1..] == run[4..];
    assert run[4..][1..] == run[5..] && run[5..][1..] == run[6..] && run[6..][1..] == [];
    hide Next, Enabled, Possible, Final, Entered, WithPhase, Join, OverLimit;
    var held := h.(pending := h.pending + 1);
    var within := Entered(held, cfg, c, user);
    FirstStep(h, cfg, c);
    PhaseOnly(held, cfg, c, Reserved(h.pending + 1), Admit, Upgrading);
    PhaseOnly(held, cfg, c, Upgrading, UpgradeOk, Handshaking);
    PhaseOnly(held, cfg, c, Handshaking, AuthOk(user), Verified(user));
    RegisterStep(held, cfg, c, user);
    PhaseOnly(within, cfg, c, Registered(user), SendOk, Leaving);
    LastStep(within, cfg, c);
    EnteredHeld(h, cfg, c, user);
    var out := WithPhase(Entered(h, cfg, c, user), c, Done);
    NoSteps(out, cfg);
    OneStep(WithPhase(within, c, Leaving), cfg, run[6..], out);
    OneStep(WithPhase(within, c, Registered(user)), cfg, run[5..], WithPhase(within, c, Leaving));
    OneStep(WithPhase(held, c, Verified(user)), cfg, run[4..], WithPhase(within, c, Registered(user)));
    OneStep(WithPhase(held, c, Handshaking), cfg, run[3..], WithPhase(held, c, Verified(user)));
    OneStep(WithPhase(held, c, Upgrading), cfg, run[2..], WithPhase(held, c, Handshaking));
    OneStep(WithPhase(held, c, Reserved(h.pending + 1)), cfg, run[1..], WithPhase(held, c, Upgrading));
    OneStep(h, cfg, run, WithPhase(held, c, Reserved(h.pending + 1)));
  }

  lemma EnteredHeld(h: Hub, cfg: Config, c: Conn, user: User)
    ensures var within := Entered(h.(pending := h.pending + 1), cfg, c, user);
            within.(pending := within.pending - 1) == Entered(h, cfg, c, user)
  {}

  /** From any safe hub with a free handshake slot and room for the user, a new connection that authenticates gets all
      the way in: it ends registered and open, its reservation given back, and nobody else notices. */
  lemma GoodHandshakeEnters(h: Hub, cfg: Config, c: Conn, user: User)
    requires Safe(h, cfg) && c !in h.phase
    requires cfg.maxPending <= 0 || |Holders(h.phase)| < cfg.maxPending
    requires cfg.maxConns <= 0 || |Of(h.clients, user)| < cfg.maxConns
    ensures Possible(h, cfg, GoodHandshake(c, user))
    ensures var after := Final(h, cfg, GoodHandshake(c, user));
            && after.phase == h.phase[c := Done] && after.pending == h.pending && after.closed == h.closed
            && c in OpenClients(after, user) && Of(after.clients, user) == Of(h.clients, user) + {c}
            && forall other :: other != user ==> Of(after.clients, other) == Of(h.clients, other)
  {
    hide Holders, Possible, Final, GoodHandshake, Join, Capped, TableExact, Entered, WithPhase;
    assert c !in h.closed && h.pending == |Holders(h.phase)|;
    Steps(h, cfg, c, user);
    EnteredIs(h, cfg, c, user);
  }

  lemma EnteredIs(h: Hub, cfg: Config, c: Conn, user: User)
    requires c !in h.closed && (cfg.maxConns <= 0 || |Of(h.clients, user)| < cfg.maxConns)
    ensures var after := WithPhase(Entered(h, cfg, c, user), c, Done);
            && after.phase == h.phase[c := Done] && after.pending == h.pending && after.closed == h.closed
            && c in OpenClients(after, user) && Of(after.clients, user) == Of(h.clients, user) + {c}
            && forall other :: other != user ==> Of(after.clients, other) == Of(h.clients, other)
  {
    JoinExact(h.clients, user, c, cfg.maxConns);
    hide Join;
  }

  /** A verified connection is registered exactly below the cap; registered or not, the legacy path alike. */
  lemma RegisteredBelowCap(h: Hub, cfg: Config, c: Conn, step: Step)
    requires Enabled(h, cfg, c, step) && (step.Register? || step.QueryRegister?)
    ensures var user, after := h.phase[c].user, Next(h, cfg, c, step);
            var room := cfg.maxConns <= 0 || |Of(h.clients, user)| < cfg.maxConns;
            && Of(after.clients, user) == Of(h.clients, user) + (if room then {c} else {})
            && after.owner == (if room then h.owner[c := user] else h.owner)
            && after.phase[c] == (if step.QueryRegister? then Done else if room then Registered(user) else Leaving)
  {
    JoinExact(h.clients, h.phase[c].user, c, cfg.maxConns);
    hide Join;
  }

  /** A failed send or a disconnect closes an open client and takes it from the table, once. */
  lemma GoneFromTable(h: Hub, cfg: Config, c: Conn, step: Step)
    requires Enabled(h, cfg, c, step) && (step.SendFail? || step.Disconnect?) && c in h.owner
    requires TableExact(h)
    ensures var after := Next(h, cfg, c, step);
            c in after.closed && c !in Of(after.clients, h.owner[c])
            && (c in h.closed ==> after.clients == h.clients)
  {
    LeaveExact(h.clients, h.owner[c], c);
    hide Leave;
  }
}
