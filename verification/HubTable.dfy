/** The table of connected clients in server/pkg/ws/hub.go, as the code under the lock sees it. */
module HubTable {

  type User = string

  /** registerAtomic's locked part. A cap of zero or less means unlimited. */
  function Join<T(==)>(clients: map<User, set<T>>, user: User, client: T, cap: int): (map<User, set<T>>, bool) {
    var mine := if user in clients then clients[user] else {};
    if cap > 0 && |mine| >= cap then (clients, false)
    else (clients[user := mine + {client}], true)
  }

  /** unregister's locked part: an emptied user disappears. */
  function Leave<T(==)>(clients: map<User, set<T>>, user: User, client: T): map<User, set<T>> {
    if user !in clients then clients
    else if clients[user] - {client} == {} then clients - {user}
    else clients[user := clients[user] - {client}]
  }

  /** The user's clients. */
  function Of<T>(clients: map<User, set<T>>, user: User): set<T> {
    if user in clients then clients[user] else {}
  }

  /** A user below the cap, or any without a cap, is admitted and has the client too; at the cap nothing changes.
      Other users are not touched either way. */
  lemma JoinExact<T>(clients: map<User, set<T>>, user: User, client: T, cap: int)
    ensures var (after, ok) := Join(clients, user, client, cap);
            && (ok <==> cap <= 0 || |Of(clients, user)| < cap)
            && (!ok ==> after == clients)
            && (ok ==> after.Keys == clients.Keys + {user} && Of(after, user) == Of(clients, user) + {client})
            && (ok ==> forall other :: other in clients && other != user ==> after[other] == clients[other])
  {}

  /** Leaving takes this client from this user, and the user from the table with the last one. */
  lemma LeaveExact<T>(clients: map<User, set<T>>, user: User, client: T)
    ensures var after := Leave(clients, user, client);
            && Of(after, user) == Of(clients, user) - {client}
            && (user in after ==> user in clients) && (user in clients && Of(after, user) != {} ==> user in after)
            && (user in clients && Of(after, user) == {} ==> user !in after)
            && forall other :: other != user ==>
                 (other in after <==> other in clients) && (other in after ==> after[other] == clients[other])
  {}

  /** No user maps to an empty set, or to more clients than the cap allows. */
  ghost predicate Capped<T>(clients: map<User, set<T>>, cap: int) {
    forall user :: user in clients ==> clients[user] != {} && (cap > 0 ==> |clients[user]| <= cap)
  }

  lemma JoinCapped<T>(clients: map<User, set<T>>, user: User, client: T, cap: int)
    requires Capped(clients, cap)
    ensures Capped(Join(clients, user, client, cap).0, cap)
  {
    var mine := if user in clients then clients[user] else {};
    assert |mine + {client}| <= |mine| + 1;
  }

  lemma LeaveCapped<T>(clients: map<User, set<T>>, user: User, client: T, cap: int)
    requires Capped(clients, cap)
    ensures Capped(Leave(clients, user, client), cap)
  {
    if user in clients {
      SubsetSmaller(clients[user] - {client}, clients[user]);
    }
  }

  lemma {:induction false} SubsetSmaller<T>(a: set<T>, b: set<T>)
    requires a <= b
    ensures |a| <= |b|
  {
    assert b == a + (b - a);
  }

  /** Everyone registered, whoever the user. */
  ghost function Everyone<T>(clients: map<User, set<T>>): set<T> {
    set user, c | user in clients && c in clients[user] :: c
  }

  lemma EveryoneGrows<T>(clients: map<User, set<T>>, user: User, mine: set<T>)
    requires user !in clients
    ensures Everyone(clients[user := mine]) == Everyone(clients) + mine
  {
    var grown := clients[user := mine];
    assert forall u, c :: u in clients && c in clients[u] ==> u in grown && c in grown[u];
    assert forall c :: c in mine ==> user in grown && c in grown[user];
  }
}
