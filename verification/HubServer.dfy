/** The hub's methods, each run whole under its lock (server/pkg/ws/hub.go). */
module HubServer {
  import opened HubTable

  type Message = string

  const SEND_BUFFER: nat := 256

  class Client {
    const userId: User
    var send: seq<Message>  // the buffered channel
    var sendClosed: bool
    var unregistered: bool  // sync.Once

    constructor (userId: User)
      ensures this.userId == userId && send == [] && !sendClosed && !unregistered
    {
      this.userId, send, sendClosed, unregistered := userId, [], false, false;
    }

    /** A non-blocking send. In Go, sending on a closed channel panics. */
    method TrySend(message: Message)
      requires !sendClosed
      modifies this`send
      ensures send == Delivered(old(send), message)
      ensures |old(send)| < 256 ==> send == old(send) + [message]
      ensures |old(send)| >= 256 ==> send == old(send)
    {
      if |send| < SEND_BUFFER {
        send := send + [message];
      }
    }

    /** In Go, closing a closed channel panics. */
    method CloseSend()
      requires !sendClosed
      modifies this`sendClosed
      ensures sendClosed
    {
      sendClosed := true;
    }
  }

  function Delivered(buffer: seq<Message>, message: Message): seq<Message> {
    if |buffer| < SEND_BUFFER then buffer + [message] else buffer
  }

  lemma NobodyYet()
    ensures Everyone<Client>(map[]) == {}
  {}

  lemma LeaveTakesOut(clients: map<User, set<Client>>, user: User, client: Client)
    requires forall u, c :: u in clients && c in clients[u] ==> c.userId == u
    requires client.userId == user
    ensures var left := Leave(clients, user, client);
            forall u, c :: u in left && c in left[u] ==> u in clients && c in clients[u] && c != client
  {}

  class Hub {
    var clients: map<User, set<Client>>
    const maxConns: int

    /** Registered clients are filed under their own user, open, and within the cap. */
    ghost predicate Valid()
      reads this, Everyone(clients)
    {
      && Capped(clients, maxConns)
      && forall user, c :: user in clients && c in clients[user] ==>
           c.userId == user && !c.sendClosed && !c.unregistered
    }

    constructor (maxConns: int)
      ensures Valid() && clients == map[] && this.maxConns == maxConns
    {
      this.maxConns := maxConns;
      clients := map[];
    }

    method RegisterAtomic(client: Client) returns (ok: bool)
      requires Valid() && !client.sendClosed && !client.unregistered
      modifies this`clients
      ensures Valid()
      ensures (clients, ok) == Join(old(clients), client.userId, client, maxConns)
    {
      JoinCapped(clients, client.userId, client, maxConns);
      var user := client.userId;
      if maxConns > 0 {
        if |if user in clients then clients[user] else {}| >= maxConns {
          return false;
        }
      }
      if user !in clients {
        clients := clients[user := {}];
      }
      clients := clients[user := clients[user] + {client}];
      assert clients == Join(old(clients), user, client, maxConns).0;
      return true;
    }

    /** The second and later calls for a client do nothing. */
    method Unregister(client: Client)
      requires Valid() && client.unregistered == client.sendClosed
      modifies this`clients, client`sendClosed, client`unregistered
      ensures Valid() && client.unregistered && client.sendClosed
      ensures clients == if old(client.unregistered) then old(clients) else Leave(old(clients), client.userId, client)
    {
      hide Capped, Everyone;
      if client.unregistered {
        return;
      }
      LeaveCapped(clients, client.userId, client, maxConns);
      LeaveTakesOut(clients, client.userId, client);
      ghost var left := Leave(clients, client.userId, client);
      client.unregistered := true;
      var user := client.userId;
      if user in clients {
        var rest := clients[user] - {client};
        if rest == {} {
          clients := clients - {user};
        } else {
          clients := clients[user := rest];
        }
      }
      assert clients == left;
      client.CloseSend();
    }

    method ConnectedUsers() returns (n: nat)
      ensures n == |clients|
    {
      n := |clients|;
    }

    /** Sums the users' sets; no client is counted twice. */
    method TotalConnections() returns (total: nat)
      requires Valid()
      ensures total == |Everyone(clients)|
    {
      hide Everyone;
      total := 0;
      var left := clients.Keys;
      ghost var done: map<User, set<Client>> := map[];
      NobodyYet();
      while left != {}
        invariant left <= clients.Keys && done.Keys == clients.Keys - left
        invariant forall user :: user in done ==> done[user] == clients[user]
        invariant total == |Everyone(done)|
        invariant forall c :: c in Everyone(done) ==> c.userId in done
        decreases left
      {
        var user :| user in left;
        EveryoneGrows(done, user, clients[user]);
        assert Everyone(done) !! clients[user];
        done := done[user := clients[user]];
        total := total + |clients[user]|;
        left := left - {user};
      }
      assert done == clients;
    }

    /** Every client of the user gets the message if its buffer has room; nobody else gets anything. */
    method BroadcastToUser(user: User, message: Message)
      requires Valid()
      modifies (if user in clients then clients[user] else {})`send
      ensures Valid()
      ensures user in clients ==>
                forall c :: c in clients[user] ==>
                  c.send == if |old(c.send)| < 256 then old(c.send) + [message] else old(c.send)
    {
      if user in clients {
        var left := clients[user];
        while left != {}
          invariant left <= clients[user]
          invariant forall c :: c in left ==> c.send == old(c.send)
          invariant forall c :: c in clients[user] && c !in left ==> c.send == Delivered(old(c.send), message)
          decreases left
        {
          var client :| client in left;
          client.TrySend(message);
          left := left - {client};
        }
      }
    }
  }
}
